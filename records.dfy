/** The documents of the store's collections, the caller's session identity and the
    handlers' HTTP responses. */
module Records {
  import opened Wrappers

  /** A document id, minted by the store on insert (`insertedId`). */
  type Oid = nat

  /** A stored document: its `_id` and its fields. */
  datatype Doc<+T> = Doc(id: Oid, val: T)

  /** The session's `user`: what the session callback copies out of the token. */
  datatype Identity = Identity(id: string, email: string, name: string, role: string)

  /** `users`. `password` holds the hash; the reset fields exist only while a reset is pending. */
  datatype User = User(
    email: string, password: string, name: string, role: string, createdAt: int,
    resetToken: Option<string>, resetTokenExpiry: Option<int>, updatedAt: Option<int>)

  /** `favorites`. */
  datatype Favorite = Favorite(userId: string, categoryId: string, questionId: string, createdAt: int)

  /** `user_question_folders`, `user_folders` and `question_folders` (the last with a colour). */
  datatype Folder = Folder(
    userId: string, name: string, description: string, color: Option<string>,
    createdAt: int, updatedAt: int)

  /** `saved_questions`: a catalog question saved into a `user_question_folders` folder. */
  datatype SavedQuestion = SavedQuestion(
    userId: string, folderId: Oid, categoryId: string, questionId: string,
    question: string, shortAnswer: string, savedAt: int)

  /** `user_questions`: a question written by the user into a `user_folders` folder. */
  datatype UserQuestion = UserQuestion(
    folderId: Oid, userId: string, question: string, shortAnswer: string,
    detailedAnswer: string, createdAt: int, updatedAt: int)

  /** `portfolio_questions`. */
  datatype PortfolioQuestion = PortfolioQuestion(
    userId: string, portfolioId: Option<Oid>, folderId: Option<Oid>,
    question: string, suggestedAnswer: string, category: string, isAIGenerated: bool,
    createdAt: int, updatedAt: int)

  /** `portfolios`: an uploaded PDF's extracted text. */
  datatype Portfolio = Portfolio(
    userId: string, fileName: string, content: string, uploadedAt: int, analyzedAt: Option<int>)

  /** A markdown file as its front matter and its body. */
  datatype MdFile = MdFile(data: map<string, string>, content: string)

  /** One entry of the find-email answer. */
  datatype MaskedEmail = MaskedEmail(email: string, fullEmail: string, createdAt: int)

  /** The JSON payloads the handlers answer with. */
  datatype Body =
    | Error(error: string)
    | Note(message: string)
    | FolderList(folders: seq<Doc<Folder>>)
    | FolderCreated(folderId: Oid)
    | QuestionSaved(savedQuestionId: Oid, folderName: string)
    | QuestionAdded(questionId: Oid)
    | FavoriteList(favorites: seq<Doc<Favorite>>)
    | FavoriteToggled(message: string, isFavorite: bool)
    | QuestionList(questions: seq<Doc<PortfolioQuestion>>)
    | PortfolioUploaded(portfolioId: Oid)
    | Analyzed(count: nat, message: string)
    | SignedUp(userId: Oid)
    | ResetIssued(message: string, email: string, resetToken: string, expiresAt: int)
    | EmailsFound(message: string, emails: seq<MaskedEmail>)

  datatype Response = Response(status: int, body: Body)

  const LoginRequired: string := "로그인이 필요합니다"
  const AdminRequired: string := "관리자 권한이 필요합니다"

  /** The answer of every handler that finds no session user. */
  const Unauthorized: Response := Response(401, Error(LoginRequired))
}
