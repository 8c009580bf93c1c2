/** app/api/favorites/route.ts: the caller's favorite catalog questions. A POST toggles one:
    an existing favorite is removed, a missing one is added. */
module FavoritesRoute {
  import opened Wrappers
  import opened Seqs
  import opened Records
  import opened Store

  const Removed: string := "찜 해제"
  const Added: string := "찜 추가"

  /** `session?.user?.id` is missing or empty. */
  predicate NoCaller(session: Option<Identity>) {
    session.None? || session.value.id == ""
  }

  /** `find({ userId })` on `favorites`. */
  function FavoritesOf(favs: seq<Doc<Favorite>>, userId: string): (r: seq<Doc<Favorite>>)
    ensures forall d :: d in r <==> d in favs && d.val.userId == userId
    ensures forall d :: multiset(r)[d] == if d.val.userId == userId then multiset(favs)[d] else 0
  {
    var r := Filter(favs, (d: Doc<Favorite>) => d.val.userId == userId);
    forall d ensures d in r <==> d in favs && d.val.userId == userId {
      FilterMembership(favs, (d: Doc<Favorite>) => d.val.userId == userId, d);
    }
    r
  }

  /** GET: exactly the caller's favorites. */
  function Get(db: Db, session: Option<Identity>): (r: Response)
    reads db
    ensures NoCaller(session) ==> r == Unauthorized
    ensures !NoCaller(session) ==> r.status == 200 && r.body.FavoriteList?
    ensures !NoCaller(session) ==>
      forall d :: d in r.body.favorites <==> d in db.favorites && d.val.userId == session.value.id
    ensures !NoCaller(session) ==>
      forall d :: multiset(r.body.favorites)[d] == if d.val.userId == session.value.id then multiset(db.favorites)[d] else 0
  {
    if NoCaller(session) then Unauthorized
    else Response(200, FavoriteList(FavoritesOf(db.favorites, session.value.id)))
  }

  /** The question (user, category, question) of `key` is among the favorites. */
  predicate IsFavorite(favs: seq<Doc<Favorite>>, key: Favorite) {
    exists i :: 0 <= i < |favs| && SameFavorite(favs[i].val, key)
  }

  /** `findOne({ userId, categoryId, questionId })` on `favorites`. */
  function FindFavorite(favs: seq<Doc<Favorite>>, key: Favorite): (r: Option<nat>)
    ensures r.Some? ==> r.value < |favs| && SameFavorite(favs[r.value].val, key)
    ensures r.None? <==> !IsFavorite(favs, key)
  {
    FirstIndex(favs, (d: Doc<Favorite>) => SameFavorite(d.val, key))
  }

  /** The favorites after a toggle of `key`, and whether the question is now a favorite;
      `id` is the id a new favorite gets. */
  function Toggle(favs: seq<Doc<Favorite>>, key: Favorite, id: Oid): (seq<Doc<Favorite>>, bool) {
    match FindFavorite(favs, key)
      case Some(k) => (RemoveAt(favs, k), false)
      case None => (favs + [Doc(id, key)], true)
  }

  /** POST: toggle the favorite of (category, question) for the caller. */
  method Post(db: Db, session: Option<Identity>, categoryId: string, questionId: string, now: int)
    returns (r: Response)
    requires db.Valid()
    modifies db`favorites, db`nextId
    ensures db.Valid()
    ensures NoCaller(session) ==> r == Unauthorized && unchanged(db)
    ensures !NoCaller(session) ==>
      var t := Toggle(old(db.favorites), Favorite(session.value.id, categoryId, questionId, now), old(db.nextId));
      db.favorites == t.0
      && r == Response(200, FavoriteToggled(if t.1 then Added else Removed, t.1))
      && db.nextId == if t.1 then old(db.nextId) + 1 else old(db.nextId)
  {
    if NoCaller(session) {
      return Unauthorized;
    }
    var key := Favorite(session.value.id, categoryId, questionId, now);
    var existing := FindFavorite(db.favorites, key);
    if existing.Some? {
      // `deleteOne({ _id: existing._id })`: the ids are distinct, so this is that document.
      IndexOfIdUnique(db.favorites, existing.value);
      var k := IndexOfId(db.favorites, db.favorites[existing.value].id).value;
      db.DeleteFavorite(k);
      r := Response(200, FavoriteToggled(Removed, false));
    } else {
      var _ := db.InsertFavorite(key);
      r := Response(200, FavoriteToggled(Added, true));
    }
  }

  /** The answer's `isFavorite` says what the favorites now hold. */
  lemma ToggleReports(favs: seq<Doc<Favorite>>, key: Favorite, id: Oid)
    requires FavoritesUnique(favs)
    ensures Toggle(favs, key, id).1 <==> IsFavorite(Toggle(favs, key, id).0, key)
  {
    var t := Toggle(favs, key, id);
    match FindFavorite(favs, key)
    case Some(k) =>
      RemovedFavoriteGone(favs, k, key);
    case None =>
      assert t.0[|favs|].val == key;
  }

  /** Toggling flips whether the question is a favorite. */
  lemma ToggleFlips(favs: seq<Doc<Favorite>>, key: Favorite, id: Oid)
    requires FavoritesUnique(favs)
    ensures IsFavorite(Toggle(favs, key, id).0, key) <==> !IsFavorite(favs, key)
  {
    ToggleReports(favs, key, id);
  }

  /** Every other question keeps its favorite state. */
  lemma ToggleKeepsOthers(favs: seq<Doc<Favorite>>, key: Favorite, id: Oid, other: Favorite)
    requires !SameFavorite(other, key)
    ensures IsFavorite(Toggle(favs, key, id).0, other) <==> IsFavorite(favs, other)
  {
    var s := Toggle(favs, key, id).0;
    match FindFavorite(favs, key)
    case Some(k) =>
      if IsFavorite(favs, other) {
        var i :| 0 <= i < |favs| && SameFavorite(favs[i].val, other);
        assert i != k;
        var j := if i < k then i else i - 1;
        assert s[j] == favs[i];
      }
      if IsFavorite(s, other) {
        var j :| 0 <= j < |s| && SameFavorite(s[j].val, other);
        var i := if j < k then j else j + 1;
        assert s[j] == favs[i];
      }
    case None =>
      if IsFavorite(s, other) {
        var j :| 0 <= j < |s| && SameFavorite(s[j].val, other);
        assert j < |favs| && s[j] == favs[j];
      }
      if IsFavorite(favs, other) {
        var i :| 0 <= i < |favs| && SameFavorite(favs[i].val, other);
        assert s[i] == favs[i];
      }
  }

  /** A toggle keeps at most one favorite per question. */
  lemma ToggleKeepsUnique(favs: seq<Doc<Favorite>>, key: Favorite, id: Oid)
    requires FavoritesUnique(favs)
    ensures FavoritesUnique(Toggle(favs, key, id).0)
  {
    var s := Toggle(favs, key, id).0;
    match FindFavorite(favs, key)
    case Some(k) =>
      forall i, j | 0 <= i < j < |s|
        ensures !SameFavorite(s[i].val, s[j].val)
      {
        var i' := if i < k then i else i + 1;
        var j' := if j < k then j else j + 1;
        assert s[i] == favs[i'] && s[j] == favs[j'];
      }
    case None =>
  }

  /** Two toggles of the same question restore its favorite state. */
  lemma ToggleTwice(favs: seq<Doc<Favorite>>, key: Favorite, id: Oid, key': Favorite, id': Oid)
    requires FavoritesUnique(favs) && SameFavorite(key', key)
    ensures IsFavorite(Toggle(Toggle(favs, key, id).0, key', id').0, key) <==> IsFavorite(favs, key)
  {
    var once := Toggle(favs, key, id).0;
    ToggleFlips(favs, key, id);
    ToggleKeepsUnique(favs, key, id);
    ToggleFlips(once, key', id');
    SameKeySameFavorite(once, key, key');
    SameKeySameFavorite(Toggle(once, key', id').0, key, key');
  }

  lemma SameKeySameFavorite(favs: seq<Doc<Favorite>>, key: Favorite, key': Favorite)
    requires SameFavorite(key', key)
    ensures IsFavorite(favs, key) <==> IsFavorite(favs, key')
  {
  }

  /** With one favorite per question, removing the one found leaves none. */
  lemma RemovedFavoriteGone(favs: seq<Doc<Favorite>>, k: nat, key: Favorite)
    requires FavoritesUnique(favs) && k < |favs| && SameFavorite(favs[k].val, key)
    ensures !IsFavorite(RemoveAt(favs, k), key)
  {
    var s := RemoveAt(favs, k);
    forall j | 0 <= j < |s|
      ensures !SameFavorite(s[j].val, key)
    {
      var i := if j < k then j else j + 1;
      assert s[j] == favs[i];
      if i < k {
        assert !SameFavorite(favs[i].val, favs[k].val);
      } else {
        assert !SameFavorite(favs[k].val, favs[i].val);
      }
    }
  }
}
