/** app/api/user-folders/route.ts: the question folders into which catalog questions are
    saved (`user_question_folders`). */
module UserFoldersRoute {
  import opened Wrappers
  import opened Seqs
  import opened Records
  import opened Store

  const NameRequired: string := "폴더 이름을 입력해주세요"
  const NameTaken: string := "이미 존재하는 폴더 이름입니다"

  /** GET: exactly the caller's folders, newest first. */
  function Get(db: Db, session: Option<Identity>): (r: Response)
    reads db
    ensures session.None? ==> r == Unauthorized
    ensures session.Some? ==> r.status == 200 && r.body.FolderList?
    ensures session.Some? ==> NonIncreasing(r.body.folders, FolderCreatedAt)
    ensures session.Some? ==>
      forall d :: d in r.body.folders <==> d in db.userQuestionFolders && d.val.userId == session.value.id
    ensures session.Some? ==>
      forall d :: multiset(r.body.folders)[d] == if d.val.userId == session.value.id then multiset(db.userQuestionFolders)[d] else 0
  {
    if session.None? then Unauthorized
    else Response(200, FolderList(FoldersNewestFirst(db.userQuestionFolders, session.value.id)))
  }

  /** POST: create a folder. The name is required but is not trimmed, and it must be new
      among the caller's folders only. */
  method Post(db: Db, session: Option<Identity>, name: string, description: string, now: int)
    returns (r: Response)
    requires db.Valid()
    modifies db`userQuestionFolders, db`nextId
    ensures db.Valid()
    ensures session.None? ==> r == Unauthorized && unchanged(db)
    ensures session.Some? && name == "" ==> r == Response(400, Error(NameRequired)) && unchanged(db)
    ensures session.Some? && name != "" && HasFolderNamed(old(db.userQuestionFolders), session.value.id, name)
      ==> r == Response(400, Error(NameTaken)) && unchanged(db)
    ensures session.Some? && name != "" && !HasFolderNamed(old(db.userQuestionFolders), session.value.id, name)
      ==> (r == Response(200, FolderCreated(old(db.nextId)))
        && db.userQuestionFolders == old(db.userQuestionFolders)
             + [Doc(old(db.nextId), Folder(session.value.id, name, description, None, now, now))]
        && db.nextId == old(db.nextId) + 1)
  {
    if session.None? {
      return Unauthorized;
    }
    var userId := session.value.id;
    if name == "" {
      return Response(400, Error(NameRequired));
    }
    if HasFolderNamed(db.userQuestionFolders, userId, name) {
      return Response(400, Error(NameTaken));
    }
    var id := db.InsertUserQuestionFolder(Folder(userId, name, description, None, now, now));
    r := Response(200, FolderCreated(id));
  }

  /** The duplicate check looks only at the caller's own folders: a name other users hold is
      free for the caller. */
  lemma NameFreeForOtherUser(folders: seq<Doc<Folder>>, userId: string, name: string)
    requires forall i :: 0 <= i < |folders| && folders[i].val.name == name ==> folders[i].val.userId != userId
    ensures !HasFolderNamed(folders, userId, name)
  {
  }
}
