/** app/api/portfolio/folders/route.ts: the admin's folders of portfolio questions
    (`question_folders`). */
module PortfolioFoldersRoute {
  import opened Wrappers
  import opened Seqs
  import opened Records
  import opened Store
  import opened AuthCheck

  const NameRequired: string := "폴더 이름을 입력해주세요"
  const NameTaken: string := "이미 존재하는 폴더 이름입니다"
  /** The colour a folder gets when the request names none. */
  const DefaultColor: string := "#3B82F6"

  /** GET: the gate's refusal, or exactly the admin's folders, newest first. */
  function Get(db: Db, session: Option<Identity>): (r: Response)
    reads db
    ensures !CheckAdminAuth(session).isAdmin ==> r == Refusal(CheckAdminAuth(session))
    ensures CheckAdminAuth(session).isAdmin ==>
      r.status == 200 && r.body.FolderList? && NonIncreasing(r.body.folders, FolderCreatedAt)
      && forall d :: d in r.body.folders <==> d in db.questionFolders && d.val.userId == session.value.id
    ensures CheckAdminAuth(session).isAdmin ==>
      forall d :: multiset(r.body.folders)[d] == if d.val.userId == session.value.id then multiset(db.questionFolders)[d] else 0
  {
    var auth := CheckAdminAuth(session);
    if !auth.isAdmin then Refusal(auth)
    else Response(200, FolderList(FoldersNewestFirst(db.questionFolders, auth.userId.value)))
  }

  /** The colour stored for a requested one: `color || '#3B82F6'`. */
  function ColorOrDefault(color: string): (c: string)
    ensures c != ""
    ensures color != "" ==> c == color
  {
    if color == "" then DefaultColor else color
  }

  /** POST. The name is required, not trimmed, and must be new among the admin's folders. */
  method Post(db: Db, session: Option<Identity>, name: string, description: string, color: string, now: int)
    returns (r: Response)
    requires db.Valid()
    modifies db`questionFolders, db`nextId
    ensures db.Valid()
    ensures !CheckAdminAuth(session).isAdmin ==> r == Refusal(CheckAdminAuth(session)) && unchanged(db)
    ensures CheckAdminAuth(session).isAdmin && name == ""
      ==> r == Response(400, Error(NameRequired)) && unchanged(db)
    ensures CheckAdminAuth(session).isAdmin && name != ""
      && HasFolderNamed(old(db.questionFolders), session.value.id, name)
      ==> r == Response(400, Error(NameTaken)) && unchanged(db)
    ensures CheckAdminAuth(session).isAdmin && name != ""
      && !HasFolderNamed(old(db.questionFolders), session.value.id, name)
      ==> r == Response(200, FolderCreated(old(db.nextId)))
          && db.questionFolders == old(db.questionFolders)
               + [Doc(old(db.nextId), Folder(session.value.id, name, description, Some(ColorOrDefault(color)), now, now))]
          && db.nextId == old(db.nextId) + 1
  {
    var auth := CheckAdminAuth(session);
    if !auth.isAdmin {
      return Refusal(auth);
    }
    var userId := auth.userId.value;
    if name == "" {
      return Response(400, Error(NameRequired));
    }
    if HasFolderNamed(db.questionFolders, userId, name) {
      return Response(400, Error(NameTaken));
    }
    var id := db.InsertQuestionFolder(Folder(userId, name, description, Some(ColorOrDefault(color)), now, now));
    r := Response(200, FolderCreated(id));
  }
}
