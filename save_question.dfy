/** app/api/user-folders/save-question/route.ts: save a catalog question into one of the
    caller's `user_question_folders`, at most once per folder. */
module SaveQuestionRoute {
  import opened Wrappers
  import opened Seqs
  import opened Records
  import opened Store

  const MissingFields: string := "필수 정보가 누락되었습니다"
  const FolderNotFound: string := "폴더를 찾을 수 없습니다"
  const AlreadySaved: string := "이미 이 폴더에 저장된 질문입니다"

  /** `findOne({ userId, folderId, categoryId, questionId })` on `saved_questions` finds something. */
  predicate IsSaved(saved: seq<Doc<SavedQuestion>>, key: SavedQuestion)
    ensures IsSaved(saved, key) <==> exists i :: 0 <= i < |saved| && SameSaved(saved[i].val, key)
  {
    FirstIndex(saved, (d: Doc<SavedQuestion>) => SameSaved(d.val, key)).Some?
  }

  /** The request lacks one of the fields the handler requires (`shortAnswer` is optional). */
  predicate Incomplete(folderId: Option<Oid>, categoryId: string, questionId: string, question: string) {
    folderId.None? || categoryId == "" || questionId == "" || question == ""
  }

  /** POST. The checks run in this order: the session, the required fields, that the folder
      is the caller's, and that the question is not yet in it. The folder itself is not touched. */
  method Post(db: Db, session: Option<Identity>, folderId: Option<Oid>, categoryId: string,
              questionId: string, question: string, shortAnswer: string, now: int)
    returns (r: Response)
    requires db.Valid()
    modifies db`savedQuestions, db`nextId
    ensures db.Valid()
    ensures db.userQuestionFolders == old(db.userQuestionFolders)
    ensures session.None? ==> r == Unauthorized && unchanged(db)
    ensures session.Some? && Incomplete(folderId, categoryId, questionId, question)
      ==> r == Response(400, Error(MissingFields)) && unchanged(db)
    ensures session.Some? && !Incomplete(folderId, categoryId, questionId, question)
      && OwnedFolderIndex(old(db.userQuestionFolders), folderId.value, session.value.id).None?
      ==> r == Response(404, Error(FolderNotFound)) && unchanged(db)
    ensures session.Some? && !Incomplete(folderId, categoryId, questionId, question)
      && OwnedFolderIndex(old(db.userQuestionFolders), folderId.value, session.value.id).Some?
      ==> var key := SavedQuestion(session.value.id, folderId.value, categoryId, questionId,
                                   question, shortAnswer, now);
          var folder := old(db.userQuestionFolders)[
            OwnedFolderIndex(old(db.userQuestionFolders), folderId.value, session.value.id).value];
          if IsSaved(old(db.savedQuestions), key) then
            r == Response(400, Error(AlreadySaved)) && unchanged(db)
          else
            r == Response(200, QuestionSaved(old(db.nextId), folder.val.name))
            && db.savedQuestions == old(db.savedQuestions) + [Doc(old(db.nextId), key)]
            && db.nextId == old(db.nextId) + 1
  {
    if session.None? {
      return Unauthorized;
    }
    var userId := session.value.id;
    if Incomplete(folderId, categoryId, questionId, question) {
      return Response(400, Error(MissingFields));
    }
    var found := OwnedFolderIndex(db.userQuestionFolders, folderId.value, userId);
    if found.None? {
      return Response(404, Error(FolderNotFound));
    }
    var folder := db.userQuestionFolders[found.value];
    var key := SavedQuestion(userId, folderId.value, categoryId, questionId, question, shortAnswer, now);
    if IsSaved(db.savedQuestions, key) {
      return Response(400, Error(AlreadySaved));
    }
    var id := db.InsertSavedQuestion(key);
    r := Response(200, QuestionSaved(id, folder.val.name));
  }
}
