/**
 * The prototype client's local store: the list of histories, the list of rewrites and the
 * one user record, kept in the device's key-value defaults. A save loads the list, replaces
 * the entry with the same id where there is one and otherwise adds the new entry (histories at
 * the front, rewrites at the end), then writes the list back. Encoding never fails here and
 * every stored list decodes.
 */
module KuyouStorage {
  import opened Wrappers
  import opened KuyouModels
  import Ordering

  /** `firstIndex(where: { key($0) == id })`. */
  function IndexOf<T>(s: seq<T>, id: Uuid, key: T -> Uuid): (r: Option<nat>)
    ensures r.Some? ==> r.value < |s| && key(s[r.value]) == id
                        && forall j | 0 <= j < r.value :: key(s[j]) != id
    ensures r.None? <==> forall j | 0 <= j < |s| :: key(s[j]) != id
  {
    if s == [] then None
    else if key(s[0]) == id then Some(0)
    else match IndexOf(s[1..], id, key)
      case Some(i) => Some(i + 1)
      case None => None
  }

  /** The save of one entry: the first entry with its id is replaced in place; without one
    * the entry goes to the front (`insert(at: 0)`) or to the end (`append`). */
  function Upsert<T>(s: seq<T>, x: T, key: T -> Uuid, atFront: bool): seq<T> {
    match IndexOf(s, key(x), key)
    case Some(i) => s[i := x]
    case None => if atFront then [x] + s else s + [x]
  }

  /** No two entries share an id. */
  predicate UniqueIds<T>(s: seq<T>, key: T -> Uuid) {
    forall i, j | 0 <= i < j < |s| :: key(s[i]) != key(s[j])
  }

  /** Saving an entry whose id is stored overwrites exactly that entry: the list keeps its
    * length and every other position. */
  lemma UpsertReplacesInPlace<T>(s: seq<T>, x: T, key: T -> Uuid, atFront: bool, i: nat)
    requires i < |s| && key(s[i]) == key(x) && forall j | 0 <= j < i :: key(s[j]) != key(x)
    ensures var r := Upsert(s, x, key, atFront);
      |r| == |s| && r[i] == x && forall j | 0 <= j < |s| && j != i :: r[j] == s[j]
  {
    IndexOfFirst(s, key(x), key, i);
  }

  /** Saving an entry with a new id adds it at the front or at the end and keeps the rest. */
  lemma UpsertAddsNew<T>(s: seq<T>, x: T, key: T -> Uuid, atFront: bool)
    requires forall j | 0 <= j < |s| :: key(s[j]) != key(x)
    ensures Upsert(s, x, key, atFront) == if atFront then [x] + s else s + [x]
  {
  }

  /** A save keeps ids unique, and afterwards the saved entry is the only one with its id. */
  lemma UpsertKeepsIdsUnique<T>(s: seq<T>, x: T, key: T -> Uuid, atFront: bool)
    requires UniqueIds(s, key)
    ensures var r := Upsert(s, x, key, atFront);
      UniqueIds(r, key) && x in r && forall j | 0 <= j < |r| && key(r[j]) == key(x) :: r[j] == x
  {
    var r := Upsert(s, x, key, atFront);
    match IndexOf(s, key(x), key)
    case Some(i) =>
      assert r == s[i := x] && r[i] == x;
      assert forall j | 0 <= j < |r| :: key(r[j]) == key(s[j]);
      assert forall j | 0 <= j < |r| && j != i :: r[j] == s[j];
    case None =>
      if atFront {
        assert r == [x] + s && r[0] == x;
        assert forall j | 1 <= j < |r| :: r[j] == s[j - 1];
      } else {
        assert r == s + [x] && r[|s|] == x;
        assert forall j | 0 <= j < |s| :: r[j] == s[j];
      }
  }

  /** The first index holding the id is the one `IndexOf` finds. */
  lemma IndexOfFirst<T>(s: seq<T>, id: Uuid, key: T -> Uuid, k: nat)
    requires k < |s| && key(s[k]) == id && forall j | 0 <= j < k :: key(s[j]) != id
    ensures IndexOf(s, id, key) == Some(k)
  {
    var r := IndexOf(s, id, key);
    assert r.Some?;
    assert !(r.value < k) && !(k < r.value);
  }

  /** After a save, looking the id up finds the saved entry. */
  lemma FindAfterUpsert<T>(s: seq<T>, x: T, key: T -> Uuid, atFront: bool)
    ensures var r := Upsert(s, x, key, atFront);
      IndexOf(r, key(x), key).Some? && r[IndexOf(r, key(x), key).value] == x
  {
    var r := Upsert(s, x, key, atFront);
    match IndexOf(s, key(x), key)
    case Some(i) =>
      assert r == s[i := x];
      forall j | 0 <= j < i ensures key(r[j]) != key(x) {
        assert r[j] == s[j];
      }
      IndexOfFirst(r, key(x), key, i);
    case None =>
      if atFront {
        assert r == [x] + s;
        IndexOfFirst(r, key(x), key, 0);
      } else {
        assert r == s + [x];
        forall j | 0 <= j < |s| ensures key(r[j]) != key(x) {
          assert r[j] == s[j];
        }
        IndexOfFirst(r, key(x), key, |s|);
      }
  }

  /** Saving the same entry again changes nothing. */
  lemma UpsertIdempotent<T>(s: seq<T>, x: T, key: T -> Uuid, atFront: bool)
    ensures Upsert(Upsert(s, x, key, atFront), x, key, atFront) == Upsert(s, x, key, atFront)
  {
    FindAfterUpsert(s, x, key, atFront);
    var r := Upsert(s, x, key, atFront);
    var k := IndexOf(r, key(x), key).value;
    assert r[k := x] == r;
  }

  function HistoryKey(h: BlackHistory): Uuid { h.id }

  function RewriteKey(r: Rewrite): Uuid { r.id }

  function RewriteCreatedAt(r: Rewrite): int { r.createdAt }

  class Storage {
    var histories: seq<BlackHistory>
    var rewrites: seq<Rewrite>
    var user: Option<UserModel>

    /** Nothing stored yet. */
    constructor()
      ensures histories == [] && rewrites == [] && user.None?
    {
      histories, rewrites, user := [], [], None;
    }

    /** `saveBlackHistory`: replace in place, or insert at the front. */
    method SaveBlackHistory(h: BlackHistory)
      modifies this
      ensures histories == Upsert(old(histories), h, HistoryKey, true)
      ensures rewrites == old(rewrites) && user == old(user)
      ensures LoadBlackHistory(h.id) == Some(h)
    {
      var list := histories;
      match IndexOf(list, h.id, HistoryKey) {
        case Some(index) =>
          list := list[index := h];
        case None =>
          list := [h] + list;
      }
      histories := list;
      FindAfterUpsert(old(histories), h, HistoryKey, true);
    }

    /** `updateBlackHistory`: the same as a save. */
    method UpdateBlackHistory(h: BlackHistory)
      modifies this
      ensures histories == Upsert(old(histories), h, HistoryKey, true)
      ensures rewrites == old(rewrites) && user == old(user)
      ensures LoadBlackHistory(h.id) == Some(h)
    {
      SaveBlackHistory(h);
    }

    /** `loadBlackHistory(by:)`: the first history with the id, or none. */
    function LoadBlackHistory(id: Uuid): (r: Option<BlackHistory>)
      reads this
      ensures r.None? <==> forall j | 0 <= j < |histories| :: histories[j].id != id
      ensures r.Some? ==> r.value.id == id && exists k | 0 <= k < |histories| ::
        histories[k] == r.value && forall j | 0 <= j < k :: histories[j].id != id
    {
      match IndexOf(histories, id, HistoryKey)
      case Some(k) => Some(histories[k])
      case None => None
    }

    /** `saveRewrite`: replace in place, or append. */
    method SaveRewrite(r: Rewrite)
      modifies this
      ensures rewrites == Upsert(old(rewrites), r, RewriteKey, false)
      ensures histories == old(histories) && user == old(user)
    {
      var list := rewrites;
      match IndexOf(list, r.id, RewriteKey) {
        case Some(index) =>
          list := list[index := r];
        case None =>
          list := list + [r];
      }
      rewrites := list;
    }

    /** `updateRewrite`: the same as a save. */
    method UpdateRewrite(r: Rewrite)
      modifies this
      ensures rewrites == Upsert(old(rewrites), r, RewriteKey, false)
      ensures histories == old(histories) && user == old(user)
    {
      SaveRewrite(r);
    }

    /** `loadRewrites(for:)`: exactly the rewrites of the history, each as often as stored,
      * newest first. */
    function LoadRewrites(historyId: Uuid): (r: seq<Rewrite>)
      reads this
      ensures Ordering.SortedDesc(r, RewriteCreatedAt)
      ensures multiset(r) == multiset(Ordering.Filter(rewrites, (x: Rewrite) => x.blackHistoryId == historyId))
      ensures forall x :: x in r <==> x in rewrites && x.blackHistoryId == historyId
    {
      var mine := Ordering.Filter(rewrites, (x: Rewrite) => x.blackHistoryId == historyId);
      var r := Ordering.SortDesc(mine, RewriteCreatedAt);
      assert forall x :: x in r <==> x in rewrites && x.blackHistoryId == historyId by {
        forall x ensures x in r <==> x in rewrites && x.blackHistoryId == historyId {
          assert x in r <==> x in multiset(r);
          assert x in mine <==> x in multiset(mine);
          Ordering.FilterMultiset(rewrites, (x: Rewrite) => x.blackHistoryId == historyId, x);
        }
      }
      r
    }

    /** `loadUser`: the stored user, or a new user with no points when none is stored; the
      * new user's id and date are the given ones. */
    function LoadUser(freshId: Uuid, now: int): (u: UserModel)
      reads this
      ensures user.Some? ==> u == user.value
      ensures user.None? ==> u.id == freshId && u.totalPoints == 0 && u.achievements == {}
                             && u.postedHistories == [] && u.salvationGiven == 0 && u.bestAnswersReceived == 0
    {
      match user
      case Some(v) => v
      case None => DefaultUser(freshId, now)
    }

    /** `saveUser`. */
    method SaveUser(u: UserModel)
      modifies this
      ensures user == Some(u)
      ensures histories == old(histories) && rewrites == old(rewrites)
    {
      user := Some(u);
    }

    /** `clearAllData`: every key removed; the next load starts a new user. */
    method ClearAllData()
      modifies this
      ensures histories == [] && rewrites == [] && user.None?
      ensures forall id, now :: LoadUser(id, now).totalPoints == 0
    {
      histories := [];
      rewrites := [];
      user := None;
    }
  }

  /** The user after giving a salvation: one more salvation given, then two points awarded,
    * which grants the ten-, hundred- and thousand-salvation achievements at those counts. */
  function Salvaged(u: UserModel): (v: UserModel)
    ensures v.salvationGiven == u.salvationGiven + 1
    ensures v.totalPoints == u.totalPoints + KuyouModels.GiveSalvation
    ensures v.id == u.id && v.lastActiveDate == u.lastActiveDate
    ensures v.postedHistories == u.postedHistories && v.bestAnswersReceived == u.bestAnswersReceived
    ensures v.achievements == u.achievements + Earned(v)
  {
    var w := u.(salvationGiven := u.salvationGiven + 1);
    EarnedIgnoresPoints(w, Awarded(w, KuyouModels.GiveSalvation));
    Awarded(w, KuyouModels.GiveSalvation)
  }

  /** The store's part of a salvation, the same on the timeline and on the detail screen:
    * the history is saved, then the user gains a given salvation and two points. */
  method RecordSalvation(storage: Storage, history: BlackHistory, freshUserId: Uuid, now: int)
    modifies storage
    ensures var before := old(storage.LoadUser(freshUserId, now));
      storage.histories == Upsert(old(storage.histories), history, HistoryKey, true)
      && storage.rewrites == old(storage.rewrites)
      && storage.user == Some(Salvaged(before))
  {
    storage.UpdateBlackHistory(history);
    var user := storage.LoadUser(freshUserId, now);
    user := user.(salvationGiven := user.salvationGiven + 1);
    user := AddPoints(user, KuyouModels.GiveSalvation);
    storage.SaveUser(user);
  }
}
