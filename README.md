# Infra interview-question site: verified model of the server core

This project is a Dafny model of the server side of a study site for infrastructure-engineering
interview questions. Its parts:

- The question catalog: markdown files, one directory per category.
- User accounts, with sign-in, sign-up and password reset.
- Favorites.
- Two separate folder systems for a user's own questions:
  - `user_question_folders` with `saved_questions`, for catalog questions;
  - `user_folders` with `user_questions`, for questions the user writes.
- An admin-only portfolio area: upload a PDF, generate interview questions from it, and keep
  hand-written questions and folders.
- Per-company question files, which any signed-in user may create, append to and delete.
- The keyword badge and the shortened title of a question card.

The document store is the class `Store.Db`:

- It has one `seq` field per collection, in insertion order.
- `nextId` is the next document id to mint.
- `Valid()` is the invariant every handler keeps. It says:
  - ids are increasing and below `nextId` in every collection;
  - emails are unique;
  - there is at most one favorite per (user, category, question);
  - there is at most one saved question per (user, folder, category, question);
  - no user has two folders of the same name, in each of the three folder collections.

The store's operations are the methods of `Db`:

- `insertOne` appends a document with a fresh id.
- `insertMany` appends documents with consecutive ids.
- `updateOne` and `deleteOne` act at the position the handler's lookup found; the handler proves
  that this is the document the filter names.
- `deleteMany` keeps the documents outside the filter.

The company directory is the class `Store.CompanyDir`, a map from company name to file text.

Each route handler is a method or a function in its own module:

- Inputs:
  - the session user as `Option<Identity>`;
  - the request fields, with `""` (or `None` for an id) standing for a JavaScript falsy value;
  - one `now` for every `new Date()` of the request.
- Recomputations over the store are functions.
- The answer is a `Response(status, body)`.
- `Records` holds the documents and the answers. `Text` and `Seqs` hold the string and sequence
  helpers that stand for the JavaScript methods used.

Calls the model cannot see are parameters, and no property depends on what they return beyond
what is stated:

- bcrypt's `hash` and `compare` are `hash` and `verify`.
- The PDF parser is `extractText`.
- The language-model analysis is `analyze`.
- gray-matter's reading and writing are `parse` and `stringify`.
- The regular-expression name search is `matches`.
- `Math.random()` is a real number `random` with `0 <= random < 1`.
- `process.env.ADMIN_EMAIL` is `adminEmail`.

The catalog functions of `lib/questions.ts` take the file system as a `Listing`: each existing
directory's name maps to its entries, and each entry carries its file text.

The code's category registry has seven entries: network, linux, cloud, container, cicd, java and
company. The model follows the code.

The forgot-password route answers a registered email with the reset code itself. The code
marks this as a development-mode shortcut and the model keeps it as written.
`ResetPasswordRoute.AnsweredCodeResetsAccount` states what follows from it: whoever asks about a
registered email can set that account's password within the ten minutes. A different answer
for unknown emails also tells callers which emails are registered.

## Model

| member | source | states |
|---|---|---|
| AuthCheck.CheckAdminAuth | lib/auth-check.ts:4-16 | isAdmin holds exactly when there is a session user whose role is "admin"; that is exactly when there is no error. No session gives no user id and the login-required error. A non-admin session gives its id and the admin-required error. |
| AuthCheck.Refusal | app/api/portfolio/folders/route.ts:7-10 | A refused admin gate answers 401 with the gate's own error message (login required or admin required). |
| Auth.Authorize | lib/auth.ts:14-42 | Sign-in succeeds exactly when both fields are given, the email is registered and verify accepts the password against the stored hash. It then returns that user's id (decimal), email, name and role. |
| Auth.Jwt | lib/auth.ts:46-52 | With a user, the token takes the user's role and id; without one, the token is unchanged. |
| Auth.SessionCallback | lib/auth.ts:53-59 | A session with a user gets role and id from the token, other fields kept; a session without a user is unchanged. |
| Auth.SignInReachesSession | lib/auth.ts:36-59 | After a successful sign-in, the session carries the user's role and id however many times the token is refreshed. |
| Auth.RefreshedKeeps | lib/auth.ts:46-52 | Later jwt calls without a user never change the token. |
| Auth.SessionIdIdentifiesUser | lib/auth.ts:36-41 | With distinct document ids, two sign-ins that yield the same session id signed in the same user. |
| UserFoldersRoute.Get | app/api/user-folders/route.ts:6-21 | 401 without a session; otherwise exactly the caller's folders, each as often as stored, ordered by createdAt descending. |
| UserFoldersRoute.Post | app/api/user-folders/route.ts:28-72 | 401, then 400 for an empty name, then 400 for a name the caller has, each with no change. Otherwise one folder is appended with the untrimmed name, the given description, the caller's id, both timestamps now and a fresh id, which is returned. Valid() is kept. |
| UserFoldersRoute.NameFreeForOtherUser | app/api/user-folders/route.ts:48-51 | A name held only by other users does not count as taken for the caller. |
| SaveQuestionRoute.IsSaved | app/api/user-folders/save-question/route.ts:37-42 | The lookup finds a record exactly when one has the same user, folder, category and question. |
| SaveQuestionRoute.Post | app/api/user-folders/save-question/route.ts:7-66 | Checks run in order: 401, 400 for a missing required field (shortAnswer optional), 404 for a folder that is absent or another user's, 400 for a duplicate; none of them changes anything. Success appends one record keyed by the request and answers its id and the folder's name. The folders are never changed, and the at-most-one-record invariant is kept. |
| FolderCreateRoute.Post | app/api/folders/create/route.ts:6-45 | 401; 400 for an empty or whitespace-only name; 400 when the trimmed name is already one of the caller's folder names. Otherwise one folder is appended with the trimmed name and trimmed description, and its id is answered. Per-user name uniqueness is kept. |
| FolderCreateRoute.PaddedNameIsTaken | app/api/folders/create/route.ts:24-27 | A name that differs from an existing one only by surrounding whitespace is taken. |
| FolderQuestionRoute.Post | app/api/folders/question/route.ts:7-54 | 401; 400 when the folder id, question or short answer is empty, checked before trimming; 404 for a folder not owned by the caller; no change in any of these. Otherwise it appends one question with the folder id as given and the three texts trimmed, with no duplicate check. Only that folder's updatedAt changes. |
| FolderDeleteRoute.Delete | app/api/folders/delete/route.ts:7-43 | 401; 400 without a folder id; 404 for a folder not owned by the caller; no change in any of these. Otherwise the questions whose folderId differs are kept and all others are deleted. The folder is removed and no folder with that id remains. |
| FavoritesRoute.FavoritesOf | app/api/favorites/route.ts:17-19 | Exactly the favorites whose userId is the caller's, each as often as stored. |
| FavoritesRoute.Get | app/api/favorites/route.ts:6-21 | 401 without a session user id; otherwise exactly the caller's favorites, each as often as stored. |
| FavoritesRoute.FindFavorite | app/api/favorites/route.ts:41-45 | Finds an index with the same triple, or none exactly when no favorite has it. |
| FavoritesRoute.Post | app/api/favorites/route.ts:28-58 | 401 without a session user id. Otherwise the favorites become the toggle of the triple: the found record is deleted ("찜 해제", false) or a new record is inserted ("찜 추가", true). Valid() is kept. |
| FavoritesRoute.ToggleReports | app/api/favorites/route.ts:47-58 | The reported isFavorite is exactly whether the favorites now hold the triple. |
| FavoritesRoute.ToggleFlips | app/api/favorites/route.ts:41-58 | A toggle flips the triple's membership. |
| FavoritesRoute.ToggleKeepsOthers | app/api/favorites/route.ts:41-58 | Every other triple keeps its membership. |
| FavoritesRoute.ToggleKeepsUnique | app/api/favorites/route.ts:41-58 | At most one record per triple is preserved. |
| FavoritesRoute.ToggleTwice | app/api/favorites/route.ts:41-58 | Two toggles of the same triple restore its membership. |
| FavoritesRoute.SameKeySameFavorite | app/api/favorites/route.ts:41-45 | Membership depends only on the triple, not on createdAt. |
| FavoritesRoute.RemovedFavoriteGone | app/api/favorites/route.ts:47-49 | With one record per triple, deleting the found record leaves none. |
| PortfolioFoldersRoute.Get | app/api/portfolio/folders/route.ts:5-20 | The gate's 401, or exactly the admin's folders, each as often as stored, newest first. |
| PortfolioFoldersRoute.ColorOrDefault | app/api/portfolio/folders/route.ts:63 | The stored colour is never empty: the requested one when given, otherwise the default. |
| PortfolioFoldersRoute.Post | app/api/portfolio/folders/route.ts:27-72 | The gate's 401; 400 for an empty name; 400 for a name the admin has; no change in any of these. Otherwise one folder is appended with the colour or "#3B82F6" and the description or "", and its id is answered. |
| PortfolioQuestionsRoute.QuestionsNewestFirst | app/api/portfolio/questions/route.ts:16-19 | Exactly the user's questions, each as often as stored, ordered by createdAt descending. |
| PortfolioQuestionsRoute.Get | app/api/portfolio/questions/route.ts:6-21 | The gate's 401, or exactly the admin's questions, each as often as stored, newest first. |
| PortfolioQuestionsRoute.Post | app/api/portfolio/questions/route.ts:28-61 | The gate's 401; 400 when the question or the answer is empty, with no change. Otherwise one question is appended with category "portfolio", isAIGenerated false, the admin's id and no portfolio or folder id; its id is answered. |
| PortfolioUploadRoute.Rejection | app/api/portfolio/upload/route.ts:16-26 | A file passes exactly when it is present, of type application/pdf and no larger than 10×1024×1024 bytes. A missing file, a wrong type and an oversized file get their own messages, type checked before size. |
| PortfolioUploadRoute.Post | app/api/portfolio/upload/route.ts:6-45 | The gate's 401; 400 with the rejection message; 500 when extraction fails; none of them changes anything. Otherwise one portfolio is appended with the user id, file name, extracted text, uploadedAt and no analyzedAt, and its id is answered. |
| PortfolioAnalyzeRoute.OwnedPortfolioIndex | app/api/portfolio/analyze/route.ts:23-26 | Finds a portfolio with that id owned by the user, or none exactly when there is no such portfolio. |
| PortfolioAnalyzeRoute.Generate | app/api/portfolio/analyze/route.ts:32-37 | One document per suggestion, in order, with its question and answer. Each carries the analysed portfolioId, the user id, category "portfolio", isAIGenerated true and both timestamps now. |
| PortfolioAnalyzeRoute.Post | app/api/portfolio/analyze/route.ts:7-50 | The gate's 401; 400 without an id; 404 for a portfolio that is absent or another user's; 500 when the analysis fails or is empty; no change in any of these. Otherwise the generated questions are appended with consecutive ids and only that portfolio's analyzedAt is set. No existing analyzedAt stops a second run. The answered count is the number of records inserted. |
| SignupRoute.RoleFor | app/api/auth/signup/route.ts:30 | The role is "admin" exactly when the email equals the configured admin email, otherwise "user". |
| SignupRoute.Post | app/api/auth/signup/route.ts:5-43 | 400 when a field is missing; 400 for a registered email; no change in either. Otherwise exactly one user is appended with hash(password) as its stored password, and the role. Email uniqueness is kept. |
| SignupRoute.RegisteredEmailTaken | app/api/auth/signup/route.ts:19-26 | Once a user is stored, the lookup by that email finds a user, so the email cannot register again. |
| ForgotPasswordRoute.ResetCode | app/api/auth/forgot-password/route.ts:30 | The code lies in [100000, 999999]. |
| ForgotPasswordRoute.ResetTokenSixDigits | app/api/auth/forgot-password/route.ts:30 | The token is exactly six decimal digits. |
| ForgotPasswordRoute.Post | app/api/auth/forgot-password/route.ts:5-57 | 400 without an email. An unknown email gets the link-sent message and nothing changes. Otherwise only that user's resetToken, resetTokenExpiry (now + 600000) and updatedAt change, and the answer carries the code-issued message, the email, the token and the expiry. |
| ResetPasswordRoute.ResetMatchIndex | app/api/auth/reset-password/route.ts:27-31 | Finds a user with that email, that token and an expiry strictly after now, or none exactly when there is no such user. |
| ResetPasswordRoute.Post | app/api/auth/reset-password/route.ts:5-60 | 400 when a field is missing; 400 when the new password is shorter than 6, before any lookup; 400 without a matching unexpired code; no change in any of these. Otherwise only that user changes: its password becomes hash(newPassword), updatedAt is set and both reset fields are removed. |
| ResetPasswordRoute.CodeSingleUse | app/api/auth/reset-password/route.ts:44-56 | After a reset, no code is valid for that email at any time, so repeating the reset fails. |
| ResetPasswordRoute.IssuedCodeRedeemable | app/api/auth/reset-password/route.ts:27-31 | A code issued by forgot-password is accepted for that email at every moment before the ten minutes are over. |
| ResetPasswordRoute.IssuedCodeExpires | app/api/auth/reset-password/route.ts:27-31 | Once the ten minutes are over, the issued code is refused. |
| ResetPasswordRoute.AnsweredCodeResetsAccount | app/api/auth/forgot-password/route.ts:50-57 | The code forgot-password answers to its caller is, until it expires, accepted by reset-password for exactly the account of that email. |
| FindEmailRoute.MaskLocal | app/api/auth/find-email/route.ts:47-49 | A local part longer than 2 keeps its length and first two characters, and every later character becomes '*'. A shorter part becomes its first character (if any) followed by one '*'. |
| FindEmailRoute.MaskEmailShape | app/api/auth/find-email/route.ts:44-56 | For local@domain without another '@', the masked email is the masked local part, '@' and the unchanged domain. |
| FindEmailRoute.MaskLocalExamples | app/api/auth/find-email/route.ts:47-49 | "abcdef" masks to "ab****" and "ab" to "a*". |
| FindEmailRoute.Candidates | app/api/auth/find-email/route.ts:28-34 | Exactly the users whose name matches and whose role is not "admin", each as often as stored. |
| FindEmailRoute.MaskAll | app/api/auth/find-email/route.ts:44-56 | One masked entry per user, in the same order. |
| FindEmailRoute.Post | app/api/auth/find-email/route.ts:4-64 | 400 without a name. A blocked query gets the not-found message and an empty list. Every returned entry masks a non-admin matching user, never an admin. Otherwise there is one entry per candidate, in order, with createdAt carried over, and the message counts them; with no candidate the answer is the not-found message and an empty list. |
| FindEmailRoute.AdminQueryBlocked | app/api/auth/find-email/route.ts:16-22 | A query containing "Admin" or "ADMIN" anywhere is blocked. |
| FindEmailRoute.AdminAt | app/api/auth/find-email/route.ts:16 | Lowercasing exposes any word that lowercases to "admin". |
| CompanyCreateRoute.Template | app/api/company/create/route.ts:35-58 | The text starts with the front matter naming the company and ends with the template body, headed by the company's name. |
| CompanyCreateRoute.Post | app/api/company/create/route.ts:7-65 | 401 (any signed-in user, no admin check); 400 for an empty or whitespace-only name; 400 for an existing company; the map is unchanged in each. Otherwise exactly one file is added, under the untrimmed name, holding the template; every other file is unchanged. |
| CompanyDeleteRoute.Delete | app/api/company/delete/route.ts:7-32 | 401; 400 without a name; 404 for an absent file; the map is unchanged in each. Otherwise exactly that file is removed. |
| CompanyDeleteRoute.CreateThenDelete | app/api/company/delete/route.ts:8-32 | Create succeeds exactly for a signed-in caller, a name not all whitespace and a new company; then deleting it answers the deleted message and leaves the directory as it was. |
| CompanyQuestionRoute.Section | app/api/company/question/route.ts:33-41 | The section is the "### " heading, the answer label and the short answer, then the detailed-answer block exactly when a detailed answer is given, then a newline. |
| CompanyQuestionRoute.Post | app/api/company/question/route.ts:8-52 | 401; 400 when the company, question or short answer is missing; 404 for an absent file; no write in any of these. Otherwise only that file is rewritten, with the new section appended to its body. |
| CompanyQuestionRoute.AppendKeepsFrontMatter | app/api/company/question/route.ts:29-47 | When parse reads back the file the append writes: the front matter is unchanged, and the new body is the old body followed by the section, so the old body is a prefix. |
| CompanyQuestionRoute.AppendsInOrder | app/api/company/question/route.ts:43-47 | When parse reads back both written files, two appends leave both sections, first one first. |
| Questions.Lookup | lib/questions.ts:22-30 | A category is found exactly when the registry has its id. |
| Questions.MdEntries | lib/questions.ts:37 | Exactly the entries whose name ends in ".md", each as often as listed. |
| Questions.GetCategories | lib/questions.ts:32-46 | One entry per registered category, in registry order, with its name and description. The count is the number of ".md" files, or 0 without a directory. |
| Questions.GetCategoryInfo | lib/questions.ts:48-53 | The id, plus name and description exactly when the category is registered. |
| Questions.IdOf | lib/questions.ts:66 | The id followed by ".md" is the file name. |
| Questions.ToQuestions | lib/questions.ts:63-78 | One question per markdown file, in the listing's order: the i-th question is read from the i-th file. |
| Questions.GetQuestionsByCategory | lib/questions.ts:55-81 | Without a directory, []. It fails exactly when the directory has markdown files but the category is unregistered. Otherwise there is one question per ".md" file, each named after a file of the directory and carrying the registry's display name; for a non-empty directory the list is exactly ToQuestions of its ".md" files, in order. |
| Questions.EntryNamed | lib/questions.ts:84 | Finds the entry with that name, or none exactly when no entry has it. |
| Questions.GetQuestionDetail | lib/questions.ts:83-95 | A missing file fails first. On success, the id is the requested one and the category is the registry's name. |
| Questions.CountMatchesList | lib/questions.ts:32-81 | A registered category's count equals the length of its question list. |
| Questions.DetailAgreesWithList | lib/questions.ts:55-95 | Every listed question opens on its detail page exactly as listed, when file names are distinct. |
| Questions.DetailOfEntry | lib/questions.ts:83-95 | The detail of a markdown file is the question that file holds. |
| QuestionCard.AnyContainedIff | components/QuestionCard.tsx:40 | `words.some(includes)` holds exactly when some word occurs in the text. |
| QuestionCard.FirstMatchSpec | components/QuestionCard.tsx:39-45 | The badge is that of the first group with a word in the lowercased question, or ("❓", "기타") when none matches. |
| QuestionCard.IconIsKnown | components/QuestionCard.tsx:22-45 | The badge is always one of the 12 listed pairs or the fallback. |
| QuestionCard.IconIgnoresCase | components/QuestionCard.tsx:37 | Letter case does not change the badge. |
| QuestionCard.PipelineShadowed | components/QuestionCard.tsx:22-43 | A question containing "pipeline" always gets one of the first three badges, never the deploy badge, because "pipeline" contains the network keyword "ip". |
| QuestionCard.MatchedByOrBefore | components/QuestionCard.tsx:39-43 | When group k matches, the badge comes from group k or an earlier group. |
| QuestionCard.DisplayTitle | components/QuestionCard.tsx:64-66 | A title longer than 60 becomes its first 60 characters plus "..."; a shorter one is unchanged; the result is at most 63 long. |
| Store.Db.InsertUser | app/api/auth/signup/route.ts:32-38 | insertOne into users: appends the user with the next id and keeps Valid(), given an unregistered email. |
| Store.Db.InsertFavorite | app/api/favorites/route.ts:51-56 | insertOne into favorites: appends with the next id and keeps Valid(), given the triple is absent. |
| Store.Db.InsertUserQuestionFolder | app/api/user-folders/route.ts:60-66 | insertOne into user_question_folders: appends with the next id and keeps Valid(), given the name is new for that user. |
| Store.Db.InsertSavedQuestion | app/api/user-folders/save-question/route.ts:52-60 | insertOne into saved_questions: appends with the next id and keeps Valid(), given no record has the same key. |
| Store.Db.InsertUserFolder | app/api/folders/create/route.ts:33-39 | insertOne into user_folders: appends with the next id and keeps Valid(), given the name is new for that user. |
| Store.Db.InsertUserQuestion | app/api/folders/question/route.ts:34-42 | insertOne into user_questions: appends with the next id and keeps Valid(). |
| Store.Db.InsertQuestionFolder | app/api/portfolio/folders/route.ts:59-66 | insertOne into question_folders: appends with the next id and keeps Valid(), given the name is new for that user. |
| Store.Db.InsertPortfolio | app/api/portfolio/upload/route.ts:34-39 | insertOne into portfolios: appends with the next id and keeps Valid(). |
| Store.Db.InsertPortfolioQuestion | app/api/portfolio/questions/route.ts:47-55 | insertOne into portfolio_questions: appends with the next id and keeps Valid(). |
| Store.Db.InsertPortfolioQuestions | app/api/portfolio/analyze/route.ts:39 | insertMany: appends the documents in order with consecutive ids and keeps Valid(). |
| Store.Db.SetUser | app/api/auth/forgot-password/route.ts:34-43 | updateOne on users: replaces one user's fields, keeping the email, and keeps Valid(). |
| Store.Db.TouchUserFolder | app/api/folders/question/route.ts:45-48 | updateOne `$set: { updatedAt }`: only that folder's updatedAt changes, and Valid() is kept. |
| Store.Db.SetPortfolio | app/api/portfolio/analyze/route.ts:41-44 | updateOne on portfolios: replaces one portfolio's fields and keeps Valid(). |
| Store.Db.DeleteFavorite | app/api/favorites/route.ts:48 | deleteOne on favorites: removes exactly that record and keeps Valid(). |
| Store.Db.DeleteUserFolder | app/api/folders/delete/route.ts:38 | deleteOne on user_folders: removes exactly that folder and keeps Valid(). |
| Store.Db.DeleteQuestionsIn | app/api/folders/delete/route.ts:35 | deleteMany({ folderId }): keeps exactly the questions of other folders and keeps Valid(). |
| Store.QuestionsOutside | app/api/folders/delete/route.ts:35 | Exactly the questions whose folderId differs, each as often as before. |
| Store.Touched | app/api/folders/question/route.ts:45-48 | Only the touched folder's updatedAt differs. |
| Store.TouchedKeeps | app/api/folders/question/route.ts:45-48 | Touching keeps ids and per-user name uniqueness. |
| Store.IdsOkFilter | app/api/folders/delete/route.ts:35 | What a filter keeps still has increasing ids below the bound. |
| Store.IdsOkRemoveAt | app/api/folders/delete/route.ts:38 | Deleting one document keeps the ids increasing and below the bound. |
| Store.FolderNamesRemoveAt | app/api/folders/delete/route.ts:38 | Deleting a folder keeps per-user name uniqueness. |
| Store.FolderNamesAppend | app/api/user-folders/route.ts:48-66 | A folder whose name its user does not have keeps per-user name uniqueness. |
| Store.SavedAppend | app/api/user-folders/save-question/route.ts:37-60 | A record matching no saved record keeps the at-most-one-per-key invariant. |
| Store.IdsOkAppendMinted | app/api/portfolio/analyze/route.ts:39 | Appending documents with consecutive fresh ids keeps the ids increasing. |
| Store.RemovedIdGone | app/api/folders/delete/route.ts:38 | With distinct ids, the deleted document's id no longer occurs. |
| Store.IndexOfId | app/api/folders/question/route.ts:45-46 | Finds a document with that id, or reports that none has it. |
| Store.IndexOfIdUnique | app/api/folders/question/route.ts:45-46 | With distinct ids, the lookup by id finds exactly the document the ownership check found. |
| Store.FoldersNewestFirst | app/api/user-folders/route.ts:16-19 | A permutation of the user's folders, ordered by createdAt descending: a folder is listed exactly when it is the user's. |
| Store.HasFolderNamed | app/api/user-folders/route.ts:48-51 | The lookup finds a folder exactly when the user has a folder of that name. |
| Store.OwnedFolderIndex | app/api/folders/delete/route.ts:25-28 | Finds a folder with that id owned by the user, or none exactly when there is no such folder. |
| Store.UserIndexByEmail | app/api/auth/signup/route.ts:19 | Finds a user with that email, or none exactly when no user has it. |
| Store.EmailIndexUnique | app/api/auth/reset-password/route.ts:44-45 | With unique emails, the update by email reaches the user whose code matched. |
| Text.Trim | app/api/folders/create/route.ts:16 | The result has no whitespace at either end and is empty exactly when the input is all whitespace. |
| Text.TrimIdempotent | app/api/folders/create/route.ts:26 | Trimming twice is trimming once. |
| Text.TrimPadded | app/api/folders/create/route.ts:26 | Whitespace around a trimmed core trims away to the core. |
| Text.ToLowerIdempotent | components/QuestionCard.tsx:37 | Lowercasing twice is lowercasing once. |
| Text.SplitAtFirst | app/api/auth/find-email/route.ts:46 | The first piece of a split is the text before the first separator. |
| Text.DecimalLength | app/api/auth/forgot-password/route.ts:30 | A number in [10^k, 10^(k+1)) has k + 1 digits. |
| Text.DecimalStringInjective | lib/auth.ts:37 | Different numbers have different decimal strings. |
| Seqs.Filter | app/api/user-folders/route.ts:17 | `find`: the matching elements, each as often as in the input. |
| Seqs.FirstIndex | app/api/favorites/route.ts:41-45 | `findOne`: the first matching index, or none exactly when nothing matches. |
| Seqs.SortDesc | app/api/user-folders/route.ts:18 | `sort({ key: -1 })`: a permutation of the input, ordered by the key descending. |

## Left out

- Folder ids: folders/question stores the folder id as the request string (save-question converts it to an `ObjectId`), and folders/delete deletes questions by that string while it finds the folder through `ObjectId`. A second spelling of the same id, such as upper-case hex, would find the folder and leave its questions behind. The model has one spelling per id, so it does not capture this.
- A session without a `user` object: folders/create, folders/question and folders/delete test only `!session` and then read `session.user.id`, so such a session answers 500, not 401. A session is modelled as `Option<Identity>`, which cannot express it.
- Document ids are plain numbers. Building an `ObjectId` from a malformed string, which throws and answers 500, is not modelled. A request id that does not name a document is simply not found.
- The catch-all 500 branches of the handlers are not modelled, except one in upload (the parser fails) and one in analyze (the analysis fails or returns nothing). Database and file-system errors are not modelled.
- Concurrency: every handler is one atomic step. The races between a duplicate check and its insert, and the company-file read-modify-write race, are not modelled.
- bcrypt's salt and cost, the PDF parser, the language-model call and gray-matter's YAML handling are parameters. Only the round-trip assumption `parse(stringify(m)) == m` is used, only in the two append lemmas, and only for the files the append writes. gray-matter does not satisfy it for every file; it fails, for instance, for a body with no front matter that itself starts with `---`.
- The regular expression built from the find-email query is the parameter `matches`. An invalid pattern, which throws, is not modelled.
- String lengths count characters, not UTF-16 code units. `toLowerCase` is modelled on ASCII letters only.
- The success messages that carry no data are not part of the answers: sign-up, upload, folder created, question added. Neither is the `developmentMode` flag.
- The reset expiry is answered as a millisecond number, not its ISO text. The reset code is not written to the log.
- Logging, the JSON encoding of answers, and HTTP parsing are not modelled.
- Company files: path joining and path traversal through the company name are not modelled, and neither is creating the missing directory. A company name is the map key; its `.md` suffix is implied.
- The catalog `Listing` is separate from `CompanyDir`. The company page's listing code is page plumbing.
- Registry lookups use the seven registered ids only. Prototype property names such as "constructor", which a JavaScript object lookup would also find, are not modelled.
- `Math.random` is a real number in [0, 1). Floating-point rounding of `100000 + r * 900000` is not modelled.
- All other pages and client components, apart from `getKeywordIcon` and the title cut of components/QuestionCard.tsx, are not part of this model. Neither are `lib/ai-analyzer.ts` and `lib/pdf-parser.ts`, which are foreign calls and appear as parameters, nor `types/portfolio.ts`, which holds declarations that the records follow. The routes under `[id]` directories are also not part of this model.
- Seqs.SortDesc: it promises the order and the contents, not the relative order of documents with equal createdAt, because the store's sort does not fix that order either.
