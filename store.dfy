/** The document store: one sequence of documents per collection, in insertion order,
    and the company-question files. */
module Store {
  import opened Wrappers
  import opened Seqs
  import opened Records

  /** Document ids are increasing in insertion order and below the next id to mint, so no
      two documents of a collection share an id and a new one never collides. */
  ghost predicate IdsOk<T>(s: seq<Doc<T>>, bound: nat) {
    IdsIncreasing(s) && (forall i :: 0 <= i < |s| ==> s[i].id < bound)
  }

  ghost predicate IdsIncreasing<T>(s: seq<Doc<T>>) {
    forall i, j :: 0 <= i < j < |s| ==> s[i].id < s[j].id
  }

  ghost predicate EmailsUnique(users: seq<Doc<User>>) {
    forall i, j :: 0 <= i < j < |users| ==> users[i].val.email != users[j].val.email
  }

  predicate SameFavorite(a: Favorite, b: Favorite) {
    a.userId == b.userId && a.categoryId == b.categoryId && a.questionId == b.questionId
  }

  /** At most one favorite per (user, category, question). */
  ghost predicate FavoritesUnique(favs: seq<Doc<Favorite>>) {
    forall i, j :: 0 <= i < j < |favs| ==> !SameFavorite(favs[i].val, favs[j].val)
  }

  predicate SameSaved(a: SavedQuestion, b: SavedQuestion) {
    a.userId == b.userId && a.folderId == b.folderId
    && a.categoryId == b.categoryId && a.questionId == b.questionId
  }

  /** At most one saved question per (user, folder, category, question). */
  ghost predicate SavedUnique(saved: seq<Doc<SavedQuestion>>) {
    forall i, j :: 0 <= i < j < |saved| ==> !SameSaved(saved[i].val, saved[j].val)
  }

  /** No user has two folders of the same name. */
  ghost predicate FolderNamesUnique(folders: seq<Doc<Folder>>) {
    forall i, j :: 0 <= i < j < |folders| && folders[i].val.userId == folders[j].val.userId
      ==> folders[i].val.name != folders[j].val.name
  }

  /** Appending a document minted from the bound keeps the ids in order and below the next bound. */
  lemma IdsOkAppend<T>(s: seq<Doc<T>>, d: Doc<T>, bound: nat)
    requires IdsOk(s, bound) && d.id == bound
    ensures IdsOk(s + [d], bound + 1)
  {
  }

  lemma IdsOkRaise<T>(s: seq<Doc<T>>, bound: nat, bound': nat)
    requires IdsOk(s, bound) && bound <= bound'
    ensures IdsOk(s, bound')
  {
  }

  /** A folder whose name the user does not have yet keeps the names of each user distinct. */
  lemma FolderNamesAppend(s: seq<Doc<Folder>>, d: Doc<Folder>)
    requires FolderNamesUnique(s) && !HasFolderNamed(s, d.val.userId, d.val.name)
    ensures FolderNamesUnique(s + [d])
  {
  }

  /** Documents `qs`, given consecutive ids from `first` on. */
  function Minted<T>(first: nat, qs: seq<T>): (r: seq<Doc<T>>)
    ensures |r| == |qs|
    ensures forall i :: 0 <= i < |qs| ==> r[i] == Doc(first + i, qs[i])
  {
    seq(|qs|, i requires 0 <= i < |qs| => Doc(first + i, qs[i]))
  }

  lemma IdsOkAppendMinted<T>(s: seq<Doc<T>>, first: nat, qs: seq<T>)
    requires IdsOk(s, first)
    ensures IdsOk(s + Minted(first, qs), first + |qs|)
  {
    var r := s + Minted(first, qs);
    forall i, j | 0 <= i < j < |r|
      ensures r[i].id < r[j].id
    {
      if j >= |s| {
        assert r[j].id == first + (j - |s|);
      }
    }
  }

  /** A saved question matching none of the saved ones keeps the saved questions distinct. */
  lemma SavedAppend(s: seq<Doc<SavedQuestion>>, d: Doc<SavedQuestion>)
    requires SavedUnique(s) && forall i :: 0 <= i < |s| ==> !SameSaved(s[i].val, d.val)
    ensures SavedUnique(s + [d])
  {
  }

  /** What `find` returns keeps the ids in order and below the bound. */
  lemma {:induction false} IdsOkFilter<T(!new)>(s: seq<Doc<T>>, p: Doc<T> -> bool, bound: nat)
    requires IdsOk(s, bound)
    ensures IdsOk(Filter(s, p), bound)
  {
    if s != [] {
      IdsOkFilter(s[1..], p, bound);
      var rest := Filter(s[1..], p);
      if p(s[0]) {
        forall j | 0 <= j < |rest|
          ensures s[0].id < rest[j].id
        {
          FilterMembership(s[1..], p, rest[j]);
          var i :| 0 <= i < |s[1..]| && s[1..][i] == rest[j];
          assert s[i + 1] == rest[j];
        }
        IncreasingCons(s[0], rest);
        assert Filter(s, p) == [s[0]] + rest;
      } else {
        assert Filter(s, p) == rest;
      }
      forall i | 0 <= i < |Filter(s, p)|
        ensures Filter(s, p)[i].id < bound
      {
        FilterMembership(s, p, Filter(s, p)[i]);
      }
    }
  }

  lemma IncreasingCons<T>(x: Doc<T>, rest: seq<Doc<T>>)
    requires IdsIncreasing(rest) && forall j :: 0 <= j < |rest| ==> x.id < rest[j].id
    ensures IdsIncreasing([x] + rest)
  {
    var r := [x] + rest;
    forall i, j | 0 <= i < j < |r|
      ensures r[i].id < r[j].id
    {
      assert r[j] == rest[j - 1];
      if i > 0 {
        assert r[i] == rest[i - 1];
      }
    }
  }

  /** Deleting one document keeps the ids in order and below the bound. */
  lemma IdsOkRemoveAt<T>(s: seq<Doc<T>>, k: nat, bound: nat)
    requires IdsOk(s, bound) && k < |s|
    ensures IdsOk(RemoveAt(s, k), bound)
  {
    var r := RemoveAt(s, k);
    forall i, j | 0 <= i < j < |r|
      ensures r[i].id < r[j].id
    {
      var i' := if i < k then i else i + 1;
      var j' := if j < k then j else j + 1;
      assert r[i] == s[i'] && r[j] == s[j'];
    }
  }

  /** Deleting one folder keeps the names of each user distinct. */
  lemma FolderNamesRemoveAt(s: seq<Doc<Folder>>, k: nat)
    requires FolderNamesUnique(s) && k < |s|
    ensures FolderNamesUnique(RemoveAt(s, k))
  {
    var r := RemoveAt(s, k);
    forall i, j | 0 <= i < j < |r| && r[i].val.userId == r[j].val.userId
      ensures r[i].val.name != r[j].val.name
    {
      var i' := if i < k then i else i + 1;
      var j' := if j < k then j else j + 1;
      assert r[i] == s[i'] && r[j] == s[j'];
    }
  }

  /** With distinct ids, the deleted document's id is gone from the collection. */
  lemma RemovedIdGone<T>(s: seq<Doc<T>>, k: nat)
    requires IdsIncreasing(s) && k < |s|
    ensures forall d :: d in RemoveAt(s, k) ==> d.id != s[k].id
  {
    var r := RemoveAt(s, k);
    forall d | d in r
      ensures d.id != s[k].id
    {
      var j :| 0 <= j < |r| && r[j] == d;
      if j < k {
        assert r[j] == s[j];
      } else {
        assert r[j] == s[j + 1];
      }
    }
  }

  /** What `deleteMany({ folderId })` keeps of `user_questions`: the questions filed elsewhere,
      each as often as before. */
  function QuestionsOutside(qs: seq<Doc<UserQuestion>>, folderId: Oid): (r: seq<Doc<UserQuestion>>)
    ensures forall d :: d in r <==> d in qs && d.val.folderId != folderId
    ensures forall d :: d in r ==> multiset(r)[d] == multiset(qs)[d]
  {
    var r := Filter(qs, (d: Doc<UserQuestion>) => d.val.folderId != folderId);
    forall d ensures d in r <==> d in qs && d.val.folderId != folderId {
      FilterMembership(qs, (d: Doc<UserQuestion>) => d.val.folderId != folderId, d);
    }
    r
  }

  /** The folder at index `k` with its `updatedAt` set to `now`: `$set: { updatedAt }`. */
  function Touched(s: seq<Doc<Folder>>, k: nat, now: int): (r: seq<Doc<Folder>>)
    requires k < |s|
    ensures |r| == |s|
    ensures r[k].id == s[k].id && r[k].val == s[k].val.(updatedAt := now)
    ensures forall j :: 0 <= j < |s| && j != k ==> r[j] == s[j]
  {
    s[k := Doc(s[k].id, s[k].val.(updatedAt := now))]
  }

  /** Touching a folder changes neither any id nor any owner or name. */
  lemma TouchedKeeps(s: seq<Doc<Folder>>, k: nat, now: int, bound: nat)
    requires k < |s|
    ensures IdsOk(s, bound) ==> IdsOk(Touched(s, k, now), bound)
    ensures FolderNamesUnique(s) ==> FolderNamesUnique(Touched(s, k, now))
  {
    var r := Touched(s, k, now);
    assert forall j :: 0 <= j < |s| ==>
      r[j].id == s[j].id && r[j].val.userId == s[j].val.userId && r[j].val.name == s[j].val.name;
  }

  class Db {
    var users: seq<Doc<User>>
    var favorites: seq<Doc<Favorite>>
    var userQuestionFolders: seq<Doc<Folder>>
    var savedQuestions: seq<Doc<SavedQuestion>>
    var userFolders: seq<Doc<Folder>>
    var userQuestions: seq<Doc<UserQuestion>>
    var questionFolders: seq<Doc<Folder>>
    var portfolioQuestions: seq<Doc<PortfolioQuestion>>
    var portfolios: seq<Doc<Portfolio>>
    var nextId: nat

    ghost predicate Valid()
      reads this
    {
      IdsOk(users, nextId) && IdsOk(favorites, nextId)
      && IdsOk(userQuestionFolders, nextId) && IdsOk(savedQuestions, nextId)
      && IdsOk(userFolders, nextId) && IdsOk(userQuestions, nextId)
      && IdsOk(questionFolders, nextId) && IdsOk(portfolioQuestions, nextId)
      && IdsOk(portfolios, nextId)
      && EmailsUnique(users) && FavoritesUnique(favorites) && SavedUnique(savedQuestions)
      && FolderNamesUnique(userQuestionFolders) && FolderNamesUnique(userFolders)
      && FolderNamesUnique(questionFolders)
    }

    /** An empty database. */
    constructor ()
      ensures Valid() && nextId == 0
      ensures users == [] && favorites == [] && userQuestionFolders == [] && savedQuestions == []
      ensures userFolders == [] && userQuestions == [] && questionFolders == []
      ensures portfolioQuestions == [] && portfolios == []
    {
      users, favorites, userQuestionFolders, savedQuestions := [], [], [], [];
      userFolders, userQuestions, questionFolders := [], [], [];
      portfolioQuestions, portfolios, nextId := [], [], 0;
    }

    // insertOne: the new document gets the next id.

    method InsertUser(u: User) returns (id: Oid)
      requires Valid() && forall i :: 0 <= i < |users| ==> users[i].val.email != u.email
      modifies this`users, this`nextId
      ensures Valid() && id == old(nextId) && nextId == id + 1
      ensures users == old(users) + [Doc(id, u)]
    {
      id := nextId;
      IdsBelow(id + 1);
      IdsOkAppend(users, Doc(id, u), id);
      users := users + [Doc(id, u)];
      nextId := id + 1;
    }

    method InsertFavorite(f: Favorite) returns (id: Oid)
      requires Valid() && forall i :: 0 <= i < |favorites| ==> !SameFavorite(favorites[i].val, f)
      modifies this`favorites, this`nextId
      ensures Valid() && id == old(nextId) && nextId == id + 1
      ensures favorites == old(favorites) + [Doc(id, f)]
    {
      id := nextId;
      IdsBelow(id + 1);
      IdsOkAppend(favorites, Doc(id, f), id);
      favorites := favorites + [Doc(id, f)];
      nextId := id + 1;
    }

    method InsertUserQuestionFolder(f: Folder) returns (id: Oid)
      requires Valid() && !HasFolderNamed(userQuestionFolders, f.userId, f.name)
      modifies this`userQuestionFolders, this`nextId
      ensures Valid() && id == old(nextId) && nextId == id + 1
      ensures userQuestionFolders == old(userQuestionFolders) + [Doc(id, f)]
    {
      id := nextId;
      IdsBelow(id + 1);
      IdsOkAppend(userQuestionFolders, Doc(id, f), id);
      FolderNamesAppend(userQuestionFolders, Doc(id, f));
      userQuestionFolders := userQuestionFolders + [Doc(id, f)];
      nextId := id + 1;
    }

    method InsertSavedQuestion(q: SavedQuestion) returns (id: Oid)
      requires Valid() && forall i :: 0 <= i < |savedQuestions| ==> !SameSaved(savedQuestions[i].val, q)
      modifies this`savedQuestions, this`nextId
      ensures Valid() && id == old(nextId) && nextId == id + 1
      ensures savedQuestions == old(savedQuestions) + [Doc(id, q)]
    {
      id := nextId;
      IdsBelow(id + 1);
      IdsOkAppend(savedQuestions, Doc(id, q), id);
      SavedAppend(savedQuestions, Doc(id, q));
      savedQuestions := savedQuestions + [Doc(id, q)];
      nextId := id + 1;
    }

    method InsertUserFolder(f: Folder) returns (id: Oid)
      requires Valid() && !HasFolderNamed(userFolders, f.userId, f.name)
      modifies this`userFolders, this`nextId
      ensures Valid() && id == old(nextId) && nextId == id + 1
      ensures userFolders == old(userFolders) + [Doc(id, f)]
    {
      id := nextId;
      IdsBelow(id + 1);
      IdsOkAppend(userFolders, Doc(id, f), id);
      FolderNamesAppend(userFolders, Doc(id, f));
      userFolders := userFolders + [Doc(id, f)];
      nextId := id + 1;
    }

    method InsertUserQuestion(q: UserQuestion) returns (id: Oid)
      requires Valid()
      modifies this`userQuestions, this`nextId
      ensures Valid() && id == old(nextId) && nextId == id + 1
      ensures userQuestions == old(userQuestions) + [Doc(id, q)]
    {
      id := nextId;
      IdsBelow(id + 1);
      IdsOkAppend(userQuestions, Doc(id, q), id);
      userQuestions := userQuestions + [Doc(id, q)];
      nextId := id + 1;
    }

    method InsertQuestionFolder(f: Folder) returns (id: Oid)
      requires Valid() && !HasFolderNamed(questionFolders, f.userId, f.name)
      modifies this`questionFolders, this`nextId
      ensures Valid() && id == old(nextId) && nextId == id + 1
      ensures questionFolders == old(questionFolders) + [Doc(id, f)]
    {
      id := nextId;
      IdsBelow(id + 1);
      IdsOkAppend(questionFolders, Doc(id, f), id);
      FolderNamesAppend(questionFolders, Doc(id, f));
      questionFolders := questionFolders + [Doc(id, f)];
      nextId := id + 1;
    }

    method InsertPortfolio(p: Portfolio) returns (id: Oid)
      requires Valid()
      modifies this`portfolios, this`nextId
      ensures Valid() && id == old(nextId) && nextId == id + 1
      ensures portfolios == old(portfolios) + [Doc(id, p)]
    {
      id := nextId;
      IdsBelow(id + 1);
      IdsOkAppend(portfolios, Doc(id, p), id);
      portfolios := portfolios + [Doc(id, p)];
      nextId := id + 1;
    }

    method InsertPortfolioQuestion(q: PortfolioQuestion) returns (id: Oid)
      requires Valid()
      modifies this`portfolioQuestions, this`nextId
      ensures Valid() && id == old(nextId) && nextId == id + 1
      ensures portfolioQuestions == old(portfolioQuestions) + [Doc(id, q)]
    {
      id := nextId;
      IdsBelow(id + 1);
      IdsOkAppend(portfolioQuestions, Doc(id, q), id);
      portfolioQuestions := portfolioQuestions + [Doc(id, q)];
      nextId := id + 1;
    }

    /** insertMany: the documents get consecutive ids, in order. */
    method InsertPortfolioQuestions(qs: seq<PortfolioQuestion>)
      requires Valid()
      modifies this`portfolioQuestions, this`nextId
      ensures Valid() && nextId == old(nextId) + |qs|
      ensures portfolioQuestions == old(portfolioQuestions) + Minted(old(nextId), qs)
    {
      var first := nextId;
      IdsBelow(first + |qs|);
      IdsOkAppendMinted(portfolioQuestions, first, qs);
      portfolioQuestions := portfolioQuestions + Minted(first, qs);
      nextId := first + |qs|;
    }

    /** Every collection's ids are below any bound at or past `nextId`. */
    lemma IdsBelow(bound: nat)
      requires Valid() && nextId <= bound
      ensures IdsOk(users, bound) && IdsOk(favorites, bound) && IdsOk(userQuestionFolders, bound)
      ensures IdsOk(savedQuestions, bound) && IdsOk(userFolders, bound) && IdsOk(userQuestions, bound)
      ensures IdsOk(questionFolders, bound) && IdsOk(portfolioQuestions, bound) && IdsOk(portfolios, bound)
    {
    }

    // updateOne and deleteOne at a position the handler found; deleteMany by a filter.

    /** Replaces a user document's fields; the email, on which users are unique, is kept. */
    method SetUser(k: nat, u: User)
      requires Valid() && k < |users| && u.email == users[k].val.email
      modifies this`users
      ensures Valid() && users == old(users)[k := Doc(old(users)[k].id, u)]
    {
      var d := Doc(users[k].id, u);
      assert forall j :: 0 <= j < |users| ==>
        users[k := d][j].id == users[j].id && users[k := d][j].val.email == users[j].val.email;
      users := users[k := d];
    }

    method TouchUserFolder(k: nat, now: int)
      requires Valid() && k < |userFolders|
      modifies this`userFolders
      ensures Valid() && userFolders == Touched(old(userFolders), k, now)
    {
      TouchedKeeps(userFolders, k, now, nextId);
      userFolders := Touched(userFolders, k, now);
    }

    method SetPortfolio(k: nat, p: Portfolio)
      requires Valid() && k < |portfolios|
      modifies this`portfolios
      ensures Valid() && portfolios == old(portfolios)[k := Doc(old(portfolios)[k].id, p)]
    {
      var d := Doc(portfolios[k].id, p);
      assert forall j :: 0 <= j < |portfolios| ==> portfolios[k := d][j].id == portfolios[j].id;
      portfolios := portfolios[k := d];
    }

    method DeleteFavorite(k: nat)
      requires Valid() && k < |favorites|
      modifies this`favorites
      ensures Valid() && favorites == RemoveAt(old(favorites), k)
    {
      IdsOkRemoveAt(favorites, k, nextId);
      var r := RemoveAt(favorites, k);
      forall i, j | 0 <= i < j < |r|
        ensures !SameFavorite(r[i].val, r[j].val)
      {
        var i' := if i < k then i else i + 1;
        var j' := if j < k then j else j + 1;
        assert r[i] == favorites[i'] && r[j] == favorites[j'];
      }
      favorites := r;
    }

    method DeleteUserFolder(k: nat)
      requires Valid() && k < |userFolders|
      modifies this`userFolders
      ensures Valid() && userFolders == RemoveAt(old(userFolders), k)
    {
      IdsOkRemoveAt(userFolders, k, nextId);
      FolderNamesRemoveAt(userFolders, k);
      userFolders := RemoveAt(userFolders, k);
    }

    /** deleteMany({ folderId }) on `user_questions`. */
    method DeleteQuestionsIn(folderId: Oid)
      requires Valid()
      modifies this`userQuestions
      ensures Valid() && userQuestions == QuestionsOutside(old(userQuestions), folderId)
    {
      IdsOkFilter(userQuestions, (d: Doc<UserQuestion>) => d.val.folderId != folderId, nextId);
      userQuestions := QuestionsOutside(userQuestions, folderId);
    }
  }

  /** The directory questions/company: each company's name to the text of its `<name>.md`. */
  class CompanyDir {
    var files: map<string, string>

    constructor (files: map<string, string>)
      ensures this.files == files
    {
      this.files := files;
    }
  }

  /** `findOne({ _id: id })`: the first document with that id. */
  function IndexOfId<T>(s: seq<Doc<T>>, id: Oid): (r: Option<nat>)
    ensures r.Some? ==> r.value < |s| && s[r.value].id == id
    ensures r.None? ==> forall j :: 0 <= j < |s| ==> s[j].id != id
  {
    FirstIndex(s, (d: Doc<T>) => d.id == id)
  }

  /** With distinct ids, the document at index `k` is the one `IndexOfId` finds for its id. */
  lemma IndexOfIdUnique<T>(s: seq<Doc<T>>, k: nat)
    requires IdsIncreasing(s) && k < |s|
    ensures IndexOfId(s, s[k].id) == Some(k)
  {
  }

  /** `find({ userId })` on a folder collection. */
  function FoldersOf(s: seq<Doc<Folder>>, userId: string): (r: seq<Doc<Folder>>)
    ensures forall d :: d in r <==> d in s && d.val.userId == userId
    ensures forall d :: multiset(r)[d] == if d.val.userId == userId then multiset(s)[d] else 0
  {
    var r := Filter(s, (d: Doc<Folder>) => d.val.userId == userId);
    forall d ensures d in r <==> d in s && d.val.userId == userId {
      FilterMembership(s, (d: Doc<Folder>) => d.val.userId == userId, d);
    }
    r
  }

  function FolderCreatedAt(d: Doc<Folder>): int {
    d.val.createdAt
  }

  /** `find({ userId }).sort({ createdAt: -1 })` on a folder collection: exactly the user's
      folders, newest first. */
  function FoldersNewestFirst(s: seq<Doc<Folder>>, userId: string): (r: seq<Doc<Folder>>)
    ensures NonIncreasing(r, FolderCreatedAt)
    ensures forall d :: d in r <==> d in s && d.val.userId == userId
    ensures multiset(r) == multiset(FoldersOf(s, userId))
    ensures forall d :: multiset(r)[d] == if d.val.userId == userId then multiset(s)[d] else 0
  {
    var r := SortDesc(FoldersOf(s, userId), FolderCreatedAt);
    assert forall d :: d in r <==> d in FoldersOf(s, userId) by {
      forall d ensures d in r <==> d in FoldersOf(s, userId) {
        assert d in r <==> multiset(r)[d] > 0;
        assert d in FoldersOf(s, userId) <==> multiset(FoldersOf(s, userId))[d] > 0;
      }
    }
    r
  }

  /** `findOne({ userId, name })` on a folder collection finds something. */
  predicate HasFolderNamed(s: seq<Doc<Folder>>, userId: string, name: string)
    ensures HasFolderNamed(s, userId, name)
      <==> exists i :: 0 <= i < |s| && s[i].val.userId == userId && s[i].val.name == name
  {
    FirstIndex(s, (d: Doc<Folder>) => d.val.userId == userId && d.val.name == name).Some?
  }

  /** `findOne({ _id: folderId, userId })`: the folder, if it exists and is the user's. */
  function OwnedFolderIndex(s: seq<Doc<Folder>>, folderId: Oid, userId: string): (r: Option<nat>)
    ensures r.Some? ==> r.value < |s| && s[r.value].id == folderId && s[r.value].val.userId == userId
    ensures r.None? <==> forall j :: 0 <= j < |s| ==> !(s[j].id == folderId && s[j].val.userId == userId)
  {
    FirstIndex(s, (d: Doc<Folder>) => d.id == folderId && d.val.userId == userId)
  }

  /** `findOne({ email })` on `users`. */
  function UserIndexByEmail(users: seq<Doc<User>>, email: string): (r: Option<nat>)
    ensures r.Some? ==> r.value < |users| && users[r.value].val.email == email
    ensures r.None? <==> forall j :: 0 <= j < |users| ==> users[j].val.email != email
  {
    FirstIndex(users, (d: Doc<User>) => d.val.email == email)
  }

  /** With unique emails, the user at index `k` is the one found by its email. */
  lemma EmailIndexUnique(users: seq<Doc<User>>, k: nat)
    requires EmailsUnique(users) && k < |users|
    ensures UserIndexByEmail(users, users[k].val.email) == Some(k)
  {
  }
}
