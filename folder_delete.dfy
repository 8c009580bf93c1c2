/** app/api/folders/delete/route.ts: delete one of the caller's `user_folders` together with
    every question filed in it. */
module FolderDeleteRoute {
  import opened Wrappers
  import opened Seqs
  import opened Records
  import opened Store

  const IdRequired: string := "폴더 ID가 필요합니다"
  const FolderNotFound: string := "폴더를 찾을 수 없습니다"
  const Deleted: string := "폴더가 삭제되었습니다"

  /** DELETE. The folder must be the caller's; then its questions go first and the folder after. */
  method Delete(db: Db, session: Option<Identity>, folderId: Option<Oid>) returns (r: Response)
    requires db.Valid()
    modifies db`userQuestions, db`userFolders
    ensures db.Valid()
    ensures session.None? ==> r == Unauthorized && unchanged(db)
    ensures session.Some? && folderId.None? ==> r == Response(400, Error(IdRequired)) && unchanged(db)
    ensures session.Some? && folderId.Some?
      && OwnedFolderIndex(old(db.userFolders), folderId.value, session.value.id).None?
      ==> r == Response(404, Error(FolderNotFound)) && unchanged(db)
    ensures session.Some? && folderId.Some?
      && OwnedFolderIndex(old(db.userFolders), folderId.value, session.value.id).Some?
      ==> r == Response(200, Note(Deleted))
          && db.userQuestions == QuestionsOutside(old(db.userQuestions), folderId.value)
          && db.userFolders == RemoveAt(old(db.userFolders),
                                        OwnedFolderIndex(old(db.userFolders), folderId.value, session.value.id).value)
          && (forall d :: d in db.userFolders ==> d.id != folderId.value)
  {
    if session.None? {
      return Unauthorized;
    }
    if folderId.None? {
      return Response(400, Error(IdRequired));
    }
    var fid := folderId.value;
    var owned := OwnedFolderIndex(db.userFolders, fid, session.value.id);
    if owned.None? {
      return Response(404, Error(FolderNotFound));
    }
    db.DeleteQuestionsIn(fid);
    // `deleteOne({ _id })`: the first folder with that id, which is the caller's folder.
    IndexOfIdUnique(db.userFolders, owned.value);
    var k := IndexOfId(db.userFolders, fid).value;
    RemovedIdGone(db.userFolders, k);
    db.DeleteUserFolder(k);
    r := Response(200, Note(Deleted));
  }
}
