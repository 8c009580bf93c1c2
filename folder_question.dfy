/** app/api/folders/question/route.ts: write a question into one of the caller's
    `user_folders`; the folder's `updatedAt` is refreshed. */
module FolderQuestionRoute {
  import opened Wrappers
  import opened Text
  import opened Records
  import opened Store

  const FieldsRequired: string := "필수 항목을 입력해주세요"
  const FolderNotFound: string := "폴더를 찾을 수 없습니다"

  /** The folder, the question and the short answer are required; the detailed answer is not.
      The check is made before trimming, so a question of spaces alone gets through. */
  predicate Incomplete(folderId: Option<Oid>, question: string, shortAnswer: string) {
    folderId.None? || question == "" || shortAnswer == ""
  }

  /** POST. The stored question keeps the request's folder id, and its three texts trimmed. */
  method Post(db: Db, session: Option<Identity>, folderId: Option<Oid>, question: string,
              shortAnswer: string, detailedAnswer: string, now: int)
    returns (r: Response)
    requires db.Valid()
    modifies db`userQuestions, db`userFolders, db`nextId
    ensures db.Valid()
    ensures session.None? ==> r == Unauthorized && unchanged(db)
    ensures session.Some? && Incomplete(folderId, question, shortAnswer)
      ==> r == Response(400, Error(FieldsRequired)) && unchanged(db)
    ensures session.Some? && !Incomplete(folderId, question, shortAnswer)
      && OwnedFolderIndex(old(db.userFolders), folderId.value, session.value.id).None?
      ==> r == Response(404, Error(FolderNotFound)) && unchanged(db)
    ensures session.Some? && !Incomplete(folderId, question, shortAnswer)
      && OwnedFolderIndex(old(db.userFolders), folderId.value, session.value.id).Some?
      ==> var k := OwnedFolderIndex(old(db.userFolders), folderId.value, session.value.id).value;
          r == Response(200, QuestionAdded(old(db.nextId)))
          && db.userQuestions == old(db.userQuestions)
               + [Doc(old(db.nextId), UserQuestion(folderId.value, session.value.id, Trim(question),
                                                    Trim(shortAnswer), Trim(detailedAnswer), now, now))]
          && db.userFolders == Touched(old(db.userFolders), k, now)
          && db.nextId == old(db.nextId) + 1
  {
    if session.None? {
      return Unauthorized;
    }
    var userId := session.value.id;
    if Incomplete(folderId, question, shortAnswer) {
      return Response(400, Error(FieldsRequired));
    }
    var fid := folderId.value;
    var owned := OwnedFolderIndex(db.userFolders, fid, userId);
    if owned.None? {
      return Response(404, Error(FolderNotFound));
    }
    var id := db.InsertUserQuestion(
      UserQuestion(fid, userId, Trim(question), Trim(shortAnswer), Trim(detailedAnswer), now, now));
    // `updateOne({ _id })`: the first folder with that id, which is the caller's folder.
    IndexOfIdUnique(db.userFolders, owned.value);
    var k := IndexOfId(db.userFolders, fid).value;
    db.TouchUserFolder(k, now);
    r := Response(200, QuestionAdded(id));
  }
}
