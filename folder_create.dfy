/** app/api/folders/create/route.ts: create a folder in `user_folders`, whose names are
    trimmed and unique among the caller's folders. */
module FolderCreateRoute {
  import opened Wrappers
  import opened Text
  import opened Records
  import opened Store

  const NameRequired: string := "폴더명을 입력해주세요"
  const NameTaken: string := "이미 같은 이름의 폴더가 있습니다"

  /** POST. A name that is empty or only whitespace is refused; otherwise its trimmed form is
      both what is compared with the caller's folder names and what is stored. */
  method Post(db: Db, session: Option<Identity>, name: string, description: string, now: int)
    returns (r: Response)
    requires db.Valid()
    modifies db`userFolders, db`nextId
    ensures db.Valid()
    ensures session.None? ==> r == Unauthorized && unchanged(db)
    ensures session.Some? && AllWhitespace(name) ==> r == Response(400, Error(NameRequired)) && unchanged(db)
    ensures session.Some? && !AllWhitespace(name) && HasFolderNamed(old(db.userFolders), session.value.id, Trim(name))
      ==> r == Response(400, Error(NameTaken)) && unchanged(db)
    ensures session.Some? && !AllWhitespace(name) && !HasFolderNamed(old(db.userFolders), session.value.id, Trim(name))
      ==> (r == Response(200, FolderCreated(old(db.nextId)))
        && db.userFolders == old(db.userFolders)
             + [Doc(old(db.nextId), Folder(session.value.id, Trim(name), Trim(description), None, now, now))]
        && db.nextId == old(db.nextId) + 1)
  {
    if session.None? {
      return Unauthorized;
    }
    var userId := session.value.id;
    var trimmed := Trim(name);
    if name == "" || trimmed == "" {
      return Response(400, Error(NameRequired));
    }
    if HasFolderNamed(db.userFolders, userId, trimmed) {
      return Response(400, Error(NameTaken));
    }
    var id := db.InsertUserFolder(Folder(userId, trimmed, Trim(description), None, now, now));
    r := Response(200, FolderCreated(id));
  }

  /** A name that differs from an existing folder's only by surrounding whitespace is taken:
      "  Work " is refused once "Work" exists. */
  lemma PaddedNameIsTaken(folders: seq<Doc<Folder>>, userId: string, lead: string, core: string, trail: string)
    requires AllWhitespace(lead) && AllWhitespace(trail) && core != [] && Trimmed(core)
    requires HasFolderNamed(folders, userId, core)
    ensures HasFolderNamed(folders, userId, Trim(lead + core + trail))
  {
    TrimPadded(lead, core, trail);
  }
}
