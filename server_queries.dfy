/**
 * The read side of the server's controllers: the post listing with its category filter, sort
 * and page, the reply listing, the reply lookup scoped to its post, the profile statistics,
 * the points ranking with masked emails, and the points "history". None of these changes the
 * store.
 */
module ServerQueries {
  import opened Wrappers
  import opened Text
  import opened ServerModels
  import opened Serializers
  import Ordering

  // ---------------------------------------------------------------------------------------
  // PostsController#index

  /** `Post.active_posts`, in id order. */
  function ActiveRows(db: Db): (r: seq<PostRow>)
    ensures forall i | 0 <= i < |r| :: r[i].post.status == Active
  {
    Ordering.Filter(PostRows(db), (row: PostRow) => row.post.status == Active)
  }

  /** `case params[:sort] when 'popular' then popular else recent`. */
  function Sorted(rows: seq<PostRow>, sort: Option<string>): (r: seq<PostRow>)
    ensures multiset(r) == multiset(rows)
    ensures sort == Some("popular") ==> Ordering.SortedDesc(r, (row: PostRow) => row.post.sympathyCount)
    ensures sort != Some("popular") ==> Ordering.SortedDesc(r, (row: PostRow) => row.post.createdAt)
  {
    if sort == Some("popular") then Popular(rows) else RecentPosts(rows)
  }

  /** The listing before paging: the active posts, filtered by category, then sorted. */
  function Listing(db: Db, category: Option<string>, sort: Option<string>): (r: seq<PostRow>)
    ensures multiset(r) == multiset(ByCategory(ActiveRows(db), category))
  {
    Sorted(ByCategory(ActiveRows(db), category), sort)
  }

  /** Each listed row is a stored active post in the requested category, under its own id. */
  lemma ListingRows(db: Db, category: Option<string>, sort: Option<string>, x: PostRow)
    requires x in Listing(db, category, sort)
    ensures x.id in db.posts && x.post == db.posts[x.id] && x.post.status == Active
    ensures category.Some? && !IsBlank(category.value) ==> SameCategory(x.post.category, category.value)
  {
    var active := ActiveRows(db);
    assert x in multiset(ByCategory(active, category));
    if category.Some? && !IsBlank(category.value) {
      Ordering.FilterMultiset(active, (row: PostRow) => SameCategory(row.post.category, category.value), x);
    }
    Ordering.FilterMultiset(PostRows(db), (row: PostRow) => row.post.status == Active, x);
  }

  /** Every active post of the requested category is listed, and no post twice. */
  lemma {:induction false} ListingComplete(db: Db, category: Option<string>, sort: Option<string>, pid: Id)
    requires IdsBelowCounters(db) && pid in db.posts && db.posts[pid].status == Active
    requires category.None? || IsBlank(category.value) || SameCategory(db.posts[pid].category, category.value)
    ensures PostRow(pid, db.posts[pid]) in Listing(db, category, sort)
  {
    var x := PostRow(pid, db.posts[pid]);
    var rows := PostRows(db);
    IdsOfComplete(db.posts, db.nextPostId, pid);
    var i :| 0 <= i < |IdsOf(db.posts, db.nextPostId)| && IdsOf(db.posts, db.nextPostId)[i] == pid;
    assert rows[i] == x;
    Ordering.FilterMultiset(rows, (row: PostRow) => row.post.status == Active, x);
    if category.Some? && !IsBlank(category.value) {
      Ordering.FilterMultiset(ActiveRows(db), (row: PostRow) => SameCategory(row.post.category, category.value), x);
    }
    assert x in multiset(ByCategory(ActiveRows(db), category));
  }

  /** The page size when `per_page` is absent. */
  const DefaultPerPage: nat := 10

  /** The first row of page `page`, pages counted from 1; a page number below 1 is page 1. */
  function Offset(page: int, per: nat): (o: nat)
    ensures page <= 1 ==> o == 0
    ensures page > 1 ==> o == (page - 1) * per
  {
    if page <= 1 then 0 else (page - 1) * per
  }

  /** `page(page).per(per)` on an ordered relation: the rows from the page's offset, at most
    * `per` of them. */
  function PageOf<T>(s: seq<T>, page: int, per: nat): (r: seq<T>)
    ensures |r| <= per
    ensures Offset(page, per) >= |s| ==> r == []
    ensures Offset(page, per) < |s| ==>
      |r| == (if |s| - Offset(page, per) < per then |s| - Offset(page, per) else per)
    ensures forall i | 0 <= i < |r| :: Offset(page, per) + i < |s| && r[i] == s[Offset(page, per) + i]
  {
    var o := Offset(page, per);
    if o >= |s| then [] else s[o..if o + per <= |s| then o + per else |s|]
  }

  /** Pages 1 to n, one after the other. */
  function PagesThrough<T>(s: seq<T>, n: nat, per: nat): seq<T>
  {
    if n == 0 then [] else PagesThrough(s, n - 1, per) + PageOf(s, n, per)
  }

  /** `k` cut down to the length `len`. */
  function Upto(k: int, len: nat): (r: nat)
    ensures r <= len
    ensures 0 <= k <= len ==> r == k
  {
    if k < 0 then 0 else if k <= len then k else len
  }

  /** Reading pages 1 to n in turn gives the first n * per rows, in order, with no row skipped
    * or repeated. */
  lemma {:induction false} PagesTile<T>(s: seq<T>, n: nat, per: nat)
    ensures PagesThrough(s, n, per) == s[..Upto(n * per, |s|)]
  {
    if n > 0 {
      PagesTile(s, n - 1, per);
      PageIsSlice(s, n, per);
      Adjacent(s, Upto((n - 1) * per, |s|), Upto(n * per, |s|));
    }
  }

  /** Two adjacent slices from the front make one. */
  lemma Adjacent<T>(s: seq<T>, lo: nat, hi: nat)
    requires lo <= hi <= |s|
    ensures s[..lo] + s[lo..hi] == s[..hi]
  {
  }

  /** Page n is the slice between the ends of pages n - 1 and n. */
  lemma PageIsSlice<T>(s: seq<T>, n: nat, per: nat)
    requires n > 0
    ensures Upto((n - 1) * per, |s|) <= Upto(n * per, |s|)
    ensures PageOf(s, n, per) == s[Upto((n - 1) * per, |s|)..Upto(n * per, |s|)]
  {
    NextPageStart(n - 1, per);
    assert Offset(n, per) == (n - 1) * per;
    SliceFrom(s, (n - 1) * per, per, n * per);
  }

  /** The rows from `o`, at most `per` of them, run up to `o + per` cut down to the length. */
  lemma SliceFrom<T>(s: seq<T>, o: nat, per: nat, b: nat)
    requires b == o + per
    ensures Upto(o, |s|) <= Upto(b, |s|)
    ensures (if o >= |s| then [] else s[o..if o + per <= |s| then o + per else |s|]) == s[Upto(o, |s|)..Upto(b, |s|)]
  {
  }

  /** Page m + 1 starts `per` rows after page m. */
  lemma NextPageStart(m: nat, per: nat)
    ensures (m + 1) * per == m * per + per
  {
  }

  /** `PostsController#index`: the serialized page of the listing, `per_page` defaulting to 10. */
  function Index(db: Db, viewer: Option<Id>, category: Option<string>, sort: Option<string>,
                 page: int, perPage: Option<nat>): (r: seq<PostPayload>)
    ensures |r| <= perPage.GetOr(DefaultPerPage)
    ensures forall i | 0 <= i < |r| ::
      r[i].id in db.posts && r[i] == SerializePost(db, r[i].id, viewer)
      && r[i].status == Active && !r[i].isResolved
      && (category.Some? && !IsBlank(category.value) ==> SameCategory(r[i].category, category.value))
  {
    var rows := PageOf(Listing(db, category, sort), page, perPage.GetOr(DefaultPerPage));
    PageRows(db, category, sort, page, perPage.GetOr(DefaultPerPage));
    seq(|rows|, i requires 0 <= i < |rows| => SerializePost(db, rows[i].id, viewer))
  }

  lemma PageRows(db: Db, category: Option<string>, sort: Option<string>, page: int, per: nat)
    ensures var rows := PageOf(Listing(db, category, sort), page, per);
      forall i | 0 <= i < |rows| ::
        rows[i].id in db.posts && rows[i].post == db.posts[rows[i].id] && rows[i].post.status == Active
        && (category.Some? && !IsBlank(category.value) ==> SameCategory(rows[i].post.category, category.value))
  {
    var rows := PageOf(Listing(db, category, sort), page, per);
    forall i | 0 <= i < |rows|
      ensures rows[i].id in db.posts && rows[i].post == db.posts[rows[i].id] && rows[i].post.status == Active
      ensures category.Some? && !IsBlank(category.value) ==> SameCategory(rows[i].post.category, category.value)
    {
      ListingRows(db, category, sort, rows[i]);
    }
  }

  /** A resolved post is never listed. */
  lemma IndexHidesResolved(db: Db, viewer: Option<Id>, category: Option<string>, sort: Option<string>,
                           page: int, perPage: Option<nat>, pid: Id)
    requires pid in db.posts && db.posts[pid].status == Resolved
    ensures forall i | 0 <= i < |Index(db, viewer, category, sort, page, perPage)| ::
      Index(db, viewer, category, sort, page, perPage)[i].id != pid
  {
  }

  // ---------------------------------------------------------------------------------------
  // RepliesController#index and #set_reply

  /** `@post.replies.recent`. */
  function PostReplies(db: Db, pid: Id): (r: seq<ReplyRow>)
    ensures Ordering.SortedDesc(r, (row: ReplyRow) => row.reply.createdAt)
    ensures multiset(r) == multiset(Ordering.Filter(ReplyRows(db), (row: ReplyRow) => row.reply.postId == pid))
  {
    RecentReplies(Ordering.Filter(ReplyRows(db), (row: ReplyRow) => row.reply.postId == pid))
  }

  /** `RepliesController#index`: the post's replies serialized, newest first. */
  function RepliesIndex(db: Db, pid: Id, viewer: Option<Id>): (r: seq<ReplyPayload>)
    ensures forall i | 0 <= i < |r| ::
      r[i].id in db.replies && db.replies[r[i].id].postId == pid && r[i] == SerializeReply(db, r[i].id, viewer)
    ensures |r| == |PostReplies(db, pid)|
  {
    var rows := PostReplies(db, pid);
    PostRepliesRows(db, pid);
    seq(|rows|, i requires 0 <= i < |rows| => SerializeReply(db, rows[i].id, viewer))
  }

  /** The replies are listed newest first. */
  lemma RepliesIndexNewestFirst(db: Db, pid: Id, viewer: Option<Id>)
    ensures var r := RepliesIndex(db, pid, viewer);
      forall i, j | 0 <= i < j < |r| :: r[i].createdAt >= r[j].createdAt
  {
    var rows := PostReplies(db, pid);
    PostRepliesRows(db, pid);
    var r := RepliesIndex(db, pid, viewer);
    forall i, j | 0 <= i < j < |r| ensures r[i].createdAt >= r[j].createdAt {
      assert r[i] == SerializeReply(db, rows[i].id, viewer);
      assert r[j] == SerializeReply(db, rows[j].id, viewer);
    }
  }

  lemma PostRepliesRows(db: Db, pid: Id)
    ensures var rows := PostReplies(db, pid);
      forall i | 0 <= i < |rows| ::
        rows[i].id in db.replies && rows[i].reply == db.replies[rows[i].id] && rows[i].reply.postId == pid
  {
    var rows := PostReplies(db, pid);
    forall i | 0 <= i < |rows|
      ensures rows[i].id in db.replies && rows[i].reply == db.replies[rows[i].id] && rows[i].reply.postId == pid
    {
      Ordering.FilterMultiset(ReplyRows(db), (row: ReplyRow) => row.reply.postId == pid, rows[i]);
      assert rows[i] in multiset(rows);
    }
  }

  /** Every reply of the post is listed. */
  lemma {:induction false} RepliesIndexComplete(db: Db, pid: Id, viewer: Option<Id>, rid: Id)
    requires IdsBelowCounters(db) && rid in db.replies && db.replies[rid].postId == pid
    ensures exists i | 0 <= i < |RepliesIndex(db, pid, viewer)| :: RepliesIndex(db, pid, viewer)[i].id == rid
  {
    var x := ReplyRow(rid, db.replies[rid]);
    var all := ReplyRows(db);
    IdsOfComplete(db.replies, db.nextReplyId, rid);
    var i :| 0 <= i < |IdsOf(db.replies, db.nextReplyId)| && IdsOf(db.replies, db.nextReplyId)[i] == rid;
    assert all[i] == x;
    Ordering.FilterMultiset(all, (row: ReplyRow) => row.reply.postId == pid, x);
    var rows := PostReplies(db, pid);
    assert x in multiset(rows);
    var j :| 0 <= j < |rows| && rows[j] == x;
    assert RepliesIndex(db, pid, viewer)[j].id == rid;
  }

  /** `@post.replies.find(params[:id])`: only the post's own replies are found; any other id is
    * "not found". */
  function FindReply(db: Db, pid: Id, rid: Id): (r: Option<Id>)
    ensures r.Some? <==> rid in db.replies && db.replies[rid].postId == pid
    ensures r.Some? ==> r.value == rid
  {
    if rid in db.replies && db.replies[rid].postId == pid then Some(rid) else None
  }

  // ---------------------------------------------------------------------------------------
  // ProfilesController#user_stats

  datatype Stats = Stats(totalPosts: nat, activePosts: nat, resolvedPosts: nat,
                         totalReplies: nat, bestReplies: nat,
                         sympathiesGiven: nat, sympathiesReceived: int)

  function PostsOf(db: Db, uid: Id): set<Id> {
    set k | k in db.posts && db.posts[k].userId == uid
  }

  function PostsOfWith(db: Db, uid: Id, st: Status): set<Id> {
    set k | k in db.posts && db.posts[k].userId == uid && db.posts[k].status == st
  }

  function RepliesOf(db: Db, uid: Id): set<Id> {
    set k | k in db.replies && db.replies[k].userId == uid
  }

  function BestRepliesOf(db: Db, uid: Id): set<Id> {
    set k | k in db.replies && db.replies[k].userId == uid && db.replies[k].isBest
  }

  function SympathiesOf(db: Db, uid: Id): set<Id> {
    set k | k in db.sympathies && db.sympathies[k].userId == uid
  }

  /** `sum(:sympathy_count)` over the posts listed in `ids` that `uid` owns. */
  function CountSum(posts: map<Id, Post>, ids: seq<Id>, uid: Id): int
    requires forall i | 0 <= i < |ids| :: ids[i] in posts
  {
    if ids == [] then 0
    else CountSum(posts, ids[..|ids| - 1], uid)
         + (if posts[ids[|ids| - 1]].userId == uid then posts[ids[|ids| - 1]].sympathyCount else 0)
  }

  /** `user_stats` of `uid`. */
  function UserStats(db: Db, uid: Id): (s: Stats)
    ensures s.totalPosts == s.activePosts + s.resolvedPosts
    ensures s.bestReplies <= s.totalReplies
    ensures s.totalPosts == |PostsOf(db, uid)| && s.totalReplies == |RepliesOf(db, uid)|
    ensures s.sympathiesGiven == |SympathiesOf(db, uid)|
  {
    var mine := PostsOf(db, uid);
    var active := PostsOfWith(db, uid, Active);
    var resolved := PostsOfWith(db, uid, Resolved);
    assert mine == active + resolved && active !! resolved;
    var best := BestRepliesOf(db, uid);
    var replies := RepliesOf(db, uid);
    assert replies == best + (replies - best);
    Stats(|mine|, |active|, |resolved|, |replies|, |best|, |SympathiesOf(db, uid)|,
          CountSum(db.posts, IdsOf(db.posts, db.nextPostId), uid))
  }
  /** The statistics read the posts, replies and sympathies, never the users table. */
  lemma StatsIgnoreUsers(db: Db, users: map<Id, User>, uid: Id)
    ensures UserStats(db.(users := users), uid) == UserStats(db, uid)
  {
  }


  /** With no negative count stored, the sympathies received are never negative. */
  lemma {:induction false} CountSumNonNegative(posts: map<Id, Post>, ids: seq<Id>, uid: Id)
    requires forall i | 0 <= i < |ids| :: ids[i] in posts
    requires forall k | k in posts :: posts[k].sympathyCount >= 0
    ensures CountSum(posts, ids, uid) >= 0
  {
    if ids != [] {
      CountSumNonNegative(posts, ids[..|ids| - 1], uid);
    }
  }

  /** Raising one post's count by one raises the sum of its owner by one and nobody else's,
    * provided the post is listed once. */
  lemma {:induction false} CountSumBump(posts: map<Id, Post>, ids: seq<Id>, uid: Id, pid: Id)
    requires pid in posts && forall i | 0 <= i < |ids| :: ids[i] in posts
    requires multiset(ids)[pid] == 1
    ensures var posts' := posts[pid := posts[pid].(sympathyCount := posts[pid].sympathyCount + 1)];
      CountSum(posts', ids, uid) == CountSum(posts, ids, uid) + (if posts[pid].userId == uid then 1 else 0)
  {
    var posts' := posts[pid := posts[pid].(sympathyCount := posts[pid].sympathyCount + 1)];
    var init: seq<Id> := ids[..|ids| - 1];
    var last: Id := ids[|ids| - 1];
    assert ids == init + [last];
    if last == pid {
      assert multiset(init)[pid] == 0;
      CountSumFrame(posts, posts', init, uid, pid);
    } else {
      CountSumBump(posts, init, uid, pid);
    }
  }

  /** Posts not listed do not matter to the sum. */
  lemma {:induction false} CountSumFrame(posts: map<Id, Post>, posts': map<Id, Post>, ids: seq<Id>, uid: Id, pid: Id)
    requires forall i | 0 <= i < |ids| :: ids[i] in posts && ids[i] in posts'
    requires pid !in ids
    requires forall k | k in posts && k != pid :: k in posts' && posts'[k] == posts[k]
    ensures CountSum(posts', ids, uid) == CountSum(posts, ids, uid)
  {
    if ids != [] {
      CountSumFrame(posts, posts', ids[..|ids| - 1], uid, pid);
    }
  }

  /** The stats stay inside the store: a valid store never reports a negative number of
    * sympathies received. */
  lemma ReceivedNonNegative(db: Db, uid: Id)
    requires PostsValid(db)
    ensures UserStats(db, uid).sympathiesReceived >= 0
  {
    forall k | k in db.posts ensures db.posts[k].sympathyCount >= 0 {
      assert PostFieldErrors(db.posts[k]) == [];
    }
    CountSumNonNegative(db.posts, IdsOf(db.posts, db.nextPostId), uid);
  }

  // ---------------------------------------------------------------------------------------
  // UsersController#ranking, #mask_email and #points_history

  /** Ruby `str.split(c)` with the trailing empty fields removed. */
  function Split(s: string, c: char): (r: seq<string>)
    ensures |r| >= 1
    ensures s == [] ==> r == [[]]
    ensures forall i | 0 <= i < |r| :: c !in r[i]
    decreases |s|
  {
    if s == [] then [[]]
    else
      var rest := Split(s[1..], c);
      if s[0] == c then [[]] + rest else [[s[0]] + rest[0]] + rest[1..]
  }

  /** The fields of `s` around `c`, joined back, give `s`. */
  lemma {:induction false} SplitJoin(s: string, c: char)
    ensures Join(Split(s, c), c) == s
  {
    if s != [] {
      SplitJoin(s[1..], c);
      var rest := Split(s[1..], c);
      if s[0] != c {
        assert rest == [rest[0]] + rest[1..];
        assert Join(rest, c) == rest[0] + JoinTail(rest[1..], c);
      }
    }
  }

  function Join(parts: seq<string>, c: char): string
    requires |parts| >= 1
  {
    parts[0] + JoinTail(parts[1..], c)
  }

  function JoinTail(parts: seq<string>, c: char): string
  {
    if parts == [] then [] else [c] + parts[0] + JoinTail(parts[1..], c)
  }

  function DropTrailingEmpty(parts: seq<string>): (r: seq<string>)
    ensures |r| <= |parts| && r == parts[..|r|]
    ensures r == [] || r[|r| - 1] != []
    ensures forall i | |r| <= i < |parts| :: parts[i] == []
  {
    if parts == [] || parts[|parts| - 1] != [] then parts else DropTrailingEmpty(parts[..|parts| - 1])
  }

  /** `email.split('@')`. */
  function RubySplit(s: string, c: char): (r: seq<string>)
    ensures forall i | 0 <= i < |r| :: c !in r[i]
  {
    var r := DropTrailingEmpty(Split(s, c));
    assert forall i | 0 <= i < |r| :: r[i] == Split(s, c)[i];
    r
  }

  lemma SplitAround(local: string, domain: string, c: char)
    requires c !in local && c !in domain
    ensures Split(local + [c] + domain, c) == [local, domain]
  {
    SplitNoSep(domain, c);
    SplitPrefix(local, [c] + domain, c);
    assert ([c] + domain)[1..] == domain;
    assert local + [c] + domain == local + ([c] + domain);
  }

  lemma {:induction false} SplitNoSep(s: string, c: char)
    requires c !in s
    ensures Split(s, c) == [s]
  {
    if s != [] {
      SplitNoSep(s[1..], c);
      assert [s[0]] + s[1..] == s;
    }
  }

  /** A separator-free prefix is glued to the first field of what follows. */
  lemma {:induction false} SplitPrefix(p: string, t: string, c: char)
    requires c !in p && t != [] && t[0] == c
    ensures Split(p + t, c) == [p] + Split(t[1..], c)
  {
    if p != [] {
      SplitPrefix(p[1..], t, c);
      assert (p + t)[1..] == p[1..] + t;
      assert [p[0]] + p[1..] == p;
    } else {
      assert p + t == t;
    }
  }

  /** What stops `mask_email`: `parts[0]` is nil when the split has no field, and `'*' * n`
    * refuses a negative `n`. */
  datatype MaskError = NilLocalPart | NegativeRepeat

  /** `mask_email(email)` as written: the first two characters of the part before the first
    * '@', a '*' for each further character, then '@' and the part up to the next '@' (empty when
    * there is none). A local part shorter than two characters, an empty one as in "@x.com" too,
    * makes `'*' * (length - 2)` raise; an address that splits into no fields leaves it nil. */
  function MaskEmailAsWritten(email: string): (r: Result<string, MaskError>)
    ensures RubySplit(email, '@') == [] ==> r == Failure(NilLocalPart)
    ensures RubySplit(email, '@') != [] && |RubySplit(email, '@')[0]| < 2 ==> r == Failure(NegativeRepeat)
  {
    var parts := RubySplit(email, '@');
    if parts == [] then Failure(NilLocalPart)
    else
      var user := parts[0];
      var domain := if |parts| >= 2 then parts[1] else "";
      if |user| < 2 then Failure(NegativeRepeat)
      else Success(user[..2] + Repeat('*', |user| - 2) + "@" + domain)
  }

  /** A one-letter local part, an ordinary address, stops the ranking. */
  lemma OneLetterLocalPartRaises(letter: char, domain: string)
    requires letter != '@' && '@' !in domain && domain != []
    ensures MaskEmailAsWritten([letter] + "@" + domain) == Failure(NegativeRepeat)
  {
    SplitAround([letter], domain, '@');
  }

  /** The same for "a@example.com". */
  lemma OneLetterExample()
    ensures MaskEmailAsWritten("a@example.com") == Failure(NegativeRepeat)
  {
    var domain := "example.com";
    assert "a@example.com" == ['a'] + "@" + domain;
    OneLetterLocalPartRaises('a', domain);
  }

  /** `mask_email` with the repeat count clamped at zero: local parts of under two characters are
    * kept as they are. */
  function MaskEmail(email: string): (r: Result<string, MaskError>)
    ensures r.Failure? <==> RubySplit(email, '@') == []
    ensures RubySplit(email, '@') != [] && |RubySplit(email, '@')[0]| >= 2 ==> r == MaskEmailAsWritten(email)
  {
    var parts := RubySplit(email, '@');
    if parts == [] then Failure(NilLocalPart)
    else
      var user := parts[0];
      var domain := if |parts| >= 2 then parts[1] else "";
      var keep := if |user| < 2 then |user| else 2;
      Success(user[..keep] + Repeat('*', |user| - keep) + "@" + domain)
  }

  /** On an address `local@domain` with no other '@', the mask keeps the first two characters of
    * the local part and the whole domain, stars the rest, and keeps the length. */
  lemma MaskEmailShape(local: string, domain: string)
    requires '@' !in local && '@' !in domain && domain != []
    ensures var r := MaskEmail(local + "@" + domain);
      r.Success? && |r.value| == |local| + 1 + |domain|
      && r.value == local[..if |local| < 2 then |local| else 2]
                    + Repeat('*', if |local| < 2 then 0 else |local| - 2) + "@" + domain
  {
    SplitAround(local, domain, '@');
    assert local + "@" + domain == local + ['@'] + domain;
    assert DropTrailingEmpty([local, domain]) == [local, domain];
  }

  /** `users.display_nickname`, which the User model does not define, taken to mean what the
    * client's `displayNickname` shows: the nickname when it is set and not empty, otherwise
    * the sage pseudonym of the id. */
  function DisplayNickname(id: Id, u: User): (r: string)
    ensures u.nickname.Some? && u.nickname.value != [] ==> r == u.nickname.value
    ensures u.nickname.None? || u.nickname.value == [] ==> r == ReplyNickname(id)
  {
    if u.nickname.Some? && u.nickname.value != [] then u.nickname.value else ReplyNickname(id)
  }

  /** The users by non-increasing points, the first `limit` of them (100 when absent). */
  const DefaultLimit: nat := 100

  function ByPoints(db: Db): (r: seq<UserRow>)
    ensures Ordering.SortedDesc(r, (row: UserRow) => row.user.totalPoints)
    ensures multiset(r) == multiset(UserRows(db))
  {
    Ordering.SortDesc(UserRows(db), (row: UserRow) => row.user.totalPoints)
  }

  function Top(db: Db, limit: Option<nat>): (r: seq<UserRow>)
    ensures var n := limit.GetOr(DefaultLimit);
      |r| == (if n < |UserRows(db)| then n else |UserRows(db)|)
    ensures r == ByPoints(db)[..|r|]
  {
    var all := ByPoints(db);
    var n := limit.GetOr(DefaultLimit);
    assert |all| == |multiset(UserRows(db))| == |UserRows(db)|;
    all[..if n < |all| then n else |all|]
  }

  datatype RankEntry = RankEntry(rank: nat, id: Id, nickname: string, email: string, totalPoints: int)

  /** Why the ranking action does not render: the undefined `display_nickname` raises
    * NoMethodError; a masking failure raises too. */
  datatype RankingError = UndefinedDisplayNickname | MaskFailed(error: MaskError)

  /** `UsersController#ranking` as written: the first entry already calls the undefined
    * method, so any non-empty ranking fails. */
  function RankingAsWritten(db: Db, limit: Option<nat>): (r: Result<seq<RankEntry>, RankingError>)
    ensures r.Success? <==> Top(db, limit) == []
    ensures r.Success? ==> r.value == []
  {
    if Top(db, limit) == [] then Success([]) else Failure(UndefinedDisplayNickname)
  }

  /** One line of the ranking: rank `i + 1` and the user's id, pseudonym, masked email and
    * points. */
  function Entry(i: nat, row: UserRow): (e: RankEntry)
    requires MaskEmail(row.user.email).Success?
    ensures e.rank == i + 1 && e.id == row.id && e.totalPoints == row.user.totalPoints
    ensures e.nickname == DisplayNickname(row.id, row.user) && e.email == MaskEmail(row.user.email).value
  {
    RankEntry(i + 1, row.id, DisplayNickname(row.id, row.user), MaskEmail(row.user.email).value,
              row.user.totalPoints)
  }

  /** The ranking as meant: one entry per listed user, in order; it fails only when a listed
    * email splits into no fields at all, being empty or made of at signs only. */
  function Ranking(db: Db, limit: Option<nat>): (r: Result<seq<RankEntry>, RankingError>)
    ensures var top := Top(db, limit);
      r.Success? <==> forall i | 0 <= i < |top| :: MaskEmail(top[i].user.email).Success?
    ensures var top := Top(db, limit);
      r.Success? ==> (|r.value| == |top| && forall i | 0 <= i < |top| :: r.value[i] == Entry(i, top[i]))
  {
    var top := Top(db, limit);
    if forall i | 0 <= i < |top| :: MaskEmail(top[i].user.email).Success? then
      Success(seq(|top|, i requires 0 <= i < |top| => Entry(i, top[i])))
    else Failure(MaskFailed(NilLocalPart))
  }

  /** The listed rows are rows of the table, ordered by points, each user at most once. */
  lemma {:induction false} TopRows(db: Db, limit: Option<nat>)
    requires IdsBelowCounters(db)
    ensures var top := Top(db, limit);
      (forall i | 0 <= i < |top| :: top[i].id in db.users && top[i].user == db.users[top[i].id])
      && (forall i, j | 0 <= i < j < |top| ::
            top[i].user.totalPoints >= top[j].user.totalPoints && top[i].id != top[j].id)
  {
    var all := ByPoints(db);
    var top := Top(db, limit);
    RowsDistinct(db);
    Ordering.DistinctPermutation(UserRows(db), all);
    forall i | 0 <= i < |top| ensures top[i].id in db.users && top[i].user == db.users[top[i].id] {
      assert top[i] == all[i];
      RowInTable(db, all[i]);
    }
    forall i, j | 0 <= i < j < |top| ensures top[i].id != top[j].id {
      assert top[i] == all[i] && top[j] == all[j];
    }
  }

  /** A user left out of the top has no more points than anyone listed. */
  lemma {:induction false} LeftOutRankLower(db: Db, limit: Option<nat>, uid: Id)
    requires IdsBelowCounters(db) && uid in db.users
    requires forall i | 0 <= i < |Top(db, limit)| :: Top(db, limit)[i].id != uid
    ensures forall i | 0 <= i < |Top(db, limit)| :: Top(db, limit)[i].user.totalPoints >= db.users[uid].totalPoints
  {
    var all := ByPoints(db);
    var top := Top(db, limit);
    var j := PositionOf(db, uid);
    if j < |top| {
      assert false;
    }
    forall i | 0 <= i < |top| ensures top[i].user.totalPoints >= db.users[uid].totalPoints {
      assert top[i] == all[i];
    }
  }

  /** Where a user stands in the full ordering. */
  lemma PositionOf(db: Db, uid: Id) returns (j: nat)
    requires IdsBelowCounters(db) && uid in db.users
    ensures j < |ByPoints(db)| && ByPoints(db)[j] == UserRow(uid, db.users[uid])
  {
    var rows := UserRows(db);
    var ids := IdsOf(db.users, db.nextUserId);
    IdsOfComplete(db.users, db.nextUserId, uid);
    var k :| 0 <= k < |ids| && ids[k] == uid;
    assert rows[k] in multiset(ByPoints(db));
    j :| 0 <= j < |ByPoints(db)| && ByPoints(db)[j] == rows[k];
  }

  /** The ranking is the top of the table: it is ordered by points, ranks run 1, 2, 3, ... with
    * no gap or repeat, no user is listed twice, and a user left out has no more points than
    * anyone listed. */
  lemma {:induction false} RankingIsTop(db: Db, limit: Option<nat>, uid: Id)
    requires IdsBelowCounters(db) && Ranking(db, limit).Success?
    ensures var r := Ranking(db, limit).value;
      (forall i | 0 <= i < |r| :: r[i].rank == i + 1 && r[i].id in db.users
                                  && r[i].totalPoints == db.users[r[i].id].totalPoints)
      && (forall i, j | 0 <= i < j < |r| :: r[i].totalPoints >= r[j].totalPoints && r[i].id != r[j].id)
      && (uid in db.users && (forall i | 0 <= i < |r| :: r[i].id != uid) ==>
            forall i | 0 <= i < |r| :: r[i].totalPoints >= db.users[uid].totalPoints)
  {
    var top := Top(db, limit);
    TopRows(db, limit);
    if uid in db.users && (forall i | 0 <= i < |top| :: Ranking(db, limit).value[i].id != uid) {
      LeftOutRankLower(db, limit, uid);
    }
  }

  lemma RowsDistinct(db: Db)
    requires IdsBelowCounters(db)
    ensures Ordering.Distinct(UserRows(db))
  {
    IdsOfComplete(db.users, db.nextUserId, 0);
  }

  lemma RowInTable(db: Db, row: UserRow)
    requires row in multiset(UserRows(db))
    ensures row.id in db.users && row.user == db.users[row.id]
  {
  }
}
