/**
 * The server's records (users, posts, replies, sympathies), their validations, their scopes and
 * the store that holds them. A store is a map from id to record per table plus the next
 * auto-increment id of each table; `Consistent` collects what the database constraints and the
 * validations guarantee of every row, and `Valid` adds the invariant the workflows keep: a
 * resolved post has a best reply.
 */
module ServerModels {
  import opened Wrappers
  import opened Text
  import Ordering

  type Id = nat

  /** `enum status: { active:, resolved: }`. */
  datatype Status = Active | Resolved

  datatype User = User(email: string, nickname: Option<string>, totalPoints: int)

  /** A post; `nickname` is the pseudonym generated when the post was made. */
  datatype Post = Post(userId: Id, nickname: string, content: string, category: string,
                       status: Status, sympathyCount: int, createdAt: int)

  datatype Reply = Reply(postId: Id, userId: Id, content: string, isBest: bool, createdAt: int)

  datatype Sympathy = Sympathy(postId: Id, userId: Id, createdAt: int)

  datatype Db = Db(users: map<Id, User>, posts: map<Id, Post>, replies: map<Id, Reply>,
                   sympathies: map<Id, Sympathy>,
                   nextUserId: Id, nextPostId: Id, nextReplyId: Id, nextSympathyId: Id)

  /** The categories a post may carry. */
  const Categories: seq<string> := ["love", "work", "school", "family", "friend", "other"]

  /** The validation errors the models can record, one constructor per rule. */
  datatype FieldError =
    | UserMustExist
    | PostMustExist
    | NicknameBlank
    | NicknameTooLong
    | ContentBlank
    | ContentTooLong
    | CategoryBlank
    | CategoryNotIncluded
    | SympathyCountNegative
    | EmailBlank
    | EmailTaken
    | EmailInvalid
    | TotalPointsNegative
    | SympathyTaken

  // ---------------------------------------------------------------------------------------
  // Validations, in the order the models declare them (`belongs_to` first).

  lemma CategoriesNotBlank(c: string)
    ensures c in Categories ==> !IsBlank(c)
  {
    if c in Categories {
      assert !IsWhitespace(c[0]);
    }
  }

  /** Post's own attribute validations. */
  function PostFieldErrors(p: Post): (errs: seq<FieldError>)
    ensures errs == [] <==>
      !IsBlank(p.nickname) && |p.nickname| <= 50 && !IsBlank(p.content) && |p.content| <= 1000
      && p.category in Categories && p.sympathyCount >= 0
  {
    CategoriesNotBlank(p.category);
    (if IsBlank(p.nickname) then [NicknameBlank] else [])
    + (if |p.nickname| > 50 then [NicknameTooLong] else [])
    + (if IsBlank(p.content) then [ContentBlank] else [])
    + (if |p.content| > 1000 then [ContentTooLong] else [])
    + (if IsBlank(p.category) then [CategoryBlank] else [])
    + (if p.category !in Categories then [CategoryNotIncluded] else [])
    + (if p.sympathyCount < 0 then [SympathyCountNegative] else [])
  }

  /** All of Post's validations against the store: the owner must exist. */
  function PostErrors(db: Db, p: Post): (errs: seq<FieldError>)
    ensures errs == [] <==> p.userId in db.users && PostFieldErrors(p) == []
  {
    (if p.userId in db.users then [] else [UserMustExist]) + PostFieldErrors(p)
  }

  function ReplyFieldErrors(r: Reply): (errs: seq<FieldError>)
    ensures errs == [] <==> !IsBlank(r.content) && |r.content| <= 500
  {
    (if IsBlank(r.content) then [ContentBlank] else [])
    + (if |r.content| > 500 then [ContentTooLong] else [])
  }

  function ReplyErrors(db: Db, r: Reply): (errs: seq<FieldError>)
    ensures errs == [] <==> r.postId in db.posts && r.userId in db.users && ReplyFieldErrors(r) == []
  {
    (if r.postId in db.posts then [] else [PostMustExist])
    + (if r.userId in db.users then [] else [UserMustExist])
    + ReplyFieldErrors(r)
  }

  /** `validates :user_id, uniqueness: { scope: :post_id }`, checked for a new row. */
  predicate HasSympathized(db: Db, postId: Id, userId: Id) {
    exists k | k in db.sympathies :: db.sympathies[k].postId == postId && db.sympathies[k].userId == userId
  }

  function SympathyErrors(db: Db, s: Sympathy): (errs: seq<FieldError>)
    ensures errs == [] <==>
      s.postId in db.posts && s.userId in db.users && !HasSympathized(db, s.postId, s.userId)
  {
    (if s.postId in db.posts then [] else [PostMustExist])
    + (if s.userId in db.users then [] else [UserMustExist])
    + (if HasSympathized(db, s.postId, s.userId) then [SympathyTaken] else [])
  }

  /** Ruby's regular-expression `\s`: space, tab, line feed, vertical tab, form feed and
    * carriage return. */
  predicate RegexSpace(c: char) {
    c == ' ' || '\t' <= c <= '\r'
  }

  /** Devise's default `email_regexp`, `\A[^@\s]+@[^@\s]+\z`: no white space, exactly one at
    * sign, and at least one character on each side of it. */
  predicate EmailFormat(e: string) {
    (forall k | 0 <= k < |e| :: !RegexSpace(e[k]))
    && exists at | 0 < at < |e| - 1 :: e[at] == '@' && forall k | 0 <= k < |e| && k != at :: e[k] != '@'
  }

  /** The characters Ruby's `String#strip` removes: null and the ASCII white space. */
  predicate StripSpace(c: char) {
    c == '\0' || RegexSpace(c)
  }

  function StripStart(s: string): (r: string)
    ensures |r| <= |s| && r == s[|s| - |r|..]
    ensures r == [] || !StripSpace(r[0])
    ensures forall i | 0 <= i < |s| - |r| :: StripSpace(s[i])
  {
    if |s| > 0 && StripSpace(s[0]) then StripStart(s[1..]) else s
  }

  function StripEnd(s: string): (r: string)
    ensures |r| <= |s| && r == s[..|r|]
    ensures r == [] || !StripSpace(r[|r| - 1])
    ensures forall i | |r| <= i < |s| :: StripSpace(s[i])
  {
    if |s| > 0 && StripSpace(s[|s| - 1]) then StripEnd(s[..|s| - 1]) else s
  }

  /** `String#strip`. */
  function Strip(s: string): (r: string)
    ensures r == [] || (!StripSpace(r[0]) && !StripSpace(r[|r| - 1]))
    ensures |r| <= |s|
  {
    StripEnd(StripStart(s))
  }

  /** A string with no strippable character at either end is its own strip. */
  lemma StripClean(s: string)
    requires s == [] || (!StripSpace(s[0]) && !StripSpace(s[|s| - 1]))
    ensures Strip(s) == s
  {
  }

  /** What Devise's `downcase_keys` and `strip_whitespace_keys` make of an email before the
    * validations run, with `downcase` taken on ASCII letters only. */
  function NormalizedEmail(e: string): (r: string)
    ensures |r| <= |e|
    ensures forall i | 0 <= i < |r| :: !('A' <= r[i] <= 'Z')
    ensures r == [] || (!StripSpace(r[0]) && !StripSpace(r[|r| - 1]))
  {
    LowerKeepsEnds(Strip(e));
    Lower(Strip(e))
  }

  lemma LowerKeepsEnds(t: string)
    requires t == [] || (!StripSpace(t[0]) && !StripSpace(t[|t| - 1]))
    ensures forall i | 0 <= i < |t| :: !('A' <= Lower(t)[i] <= 'Z')
    ensures t == [] || (!StripSpace(Lower(t)[0]) && !StripSpace(Lower(t)[|t| - 1]))
  {
    if |t| > 0 {
      LowerCharKeepsSpace(t[0]);
      LowerCharKeepsSpace(t[|t| - 1]);
    }
    forall i | 0 <= i < |t| ensures !('A' <= Lower(t)[i] <= 'Z') {
      LowerCharKeepsSpace(t[i]);
    }
  }

  /** ASCII folding leaves spaces spaces and leaves no capital letter. */
  lemma LowerCharKeepsSpace(c: char)
    ensures StripSpace(LowerChar(c)) == StripSpace(c)
    ensures !('A' <= LowerChar(c) <= 'Z')
  {
  }

  /** Normalising twice is normalising once, so a value read back is not altered again. */
  lemma NormalizedEmailIdempotent(e: string)
    ensures NormalizedEmail(NormalizedEmail(e)) == NormalizedEmail(e)
  {
    var r := NormalizedEmail(e);
    StripClean(r);
    assert Lower(r) == r;
  }

  /** Another user than `self` already has exactly this email: Devise's `uniqueness` check,
    * `case_sensitive: true`, compares the bytes. */
  predicate EmailTakenBy(db: Db, self: Id, email: string) {
    exists v | v in db.users :: v != self && db.users[v].email == email
  }

  /** Another user than `self` has this email up to the case of ASCII letters: `uniqueness:
    * true` compares under the column's case-insensitive collation. */
  predicate EmailTakenIgnoringCase(db: Db, self: Id, email: string) {
    exists v | v in db.users :: v != self && Lower(db.users[v].email) == Lower(email)
  }

  /** `will_save_change_to_email?` for the row `self` holding `u`. */
  predicate EmailChanges(db: Db, self: Id, u: User) {
    self !in db.users || db.users[self].email != u.email
  }

  /** A case-sensitive match is also a case-insensitive one. */
  lemma TakenIsTakenIgnoringCase(db: Db, self: Id, email: string)
    requires EmailTakenBy(db, self, email)
    ensures EmailTakenIgnoringCase(db, self, email)
  {
    var v :| v in db.users && v != self && db.users[v].email == email;
    assert Lower(db.users[v].email) == Lower(email);
  }

  /** User's validations for the row `self` holding `u`, in declaration order: Devise's
    * `validatable` (presence; uniqueness and format, skipped for a blank or unchanged email),
    * then the model's own presence, uniqueness and non-negative balance. */
  function UserErrors(db: Db, self: Id, u: User): (errs: seq<FieldError>)
    ensures errs == [] <==>
      !IsBlank(u.email) && !EmailTakenIgnoringCase(db, self, u.email) && u.totalPoints >= 0
      && (EmailChanges(db, self, u) ==> EmailFormat(u.email))
  {
    var devise := EmailChanges(db, self, u) && !IsBlank(u.email);
    assert EmailTakenBy(db, self, u.email) ==> EmailTakenIgnoringCase(db, self, u.email) by {
      if EmailTakenBy(db, self, u.email) {
        TakenIsTakenIgnoringCase(db, self, u.email);
      }
    }
    (if IsBlank(u.email) then [EmailBlank] else [])
    + (if devise && EmailTakenBy(db, self, u.email) then [EmailTaken] else [])
    + (if devise && !EmailFormat(u.email) then [EmailInvalid] else [])
    + (if IsBlank(u.email) then [EmailBlank] else [])
    + (if EmailTakenIgnoringCase(db, self, u.email) then [EmailTaken] else [])
    + (if u.totalPoints < 0 then [TotalPointsNegative] else [])
  }

  /** Which validation reports what: a malformed changed email and a taken one are named. */
  lemma UserErrorsNamed(db: Db, self: Id, u: User)
    ensures EmailInvalid in UserErrors(db, self, u) <==>
      EmailChanges(db, self, u) && !IsBlank(u.email) && !EmailFormat(u.email)
    ensures EmailTaken in UserErrors(db, self, u) <==> EmailTakenIgnoringCase(db, self, u.email)
  {
    if EmailTakenBy(db, self, u.email) {
      TakenIsTakenIgnoringCase(db, self, u.email);
    }
  }

  /** `t.string "nickname", limit: 30`; the email column has the default limit of 255. */
  const NicknameLimit: nat := 30
  const EmailLimit: nat := 255

  /** The row fits its columns; MySQL in strict mode refuses to store one that does not. */
  predicate FitsColumns(u: User) {
    |u.email| <= EmailLimit && (u.nickname.Some? ==> |u.nickname.value| <= NicknameLimit)
  }

  /** A user's `total_points` looked up by id: nil when there is no such user. The points
    * ledger and the points history both read the balance this way. */
  function Balance(db: Db, uid: Id): (b: Option<int>)
    ensures b.Some? <==> uid in db.users
    ensures b.Some? ==> b.value == db.users[uid].totalPoints
  {
    if uid in db.users then Some(db.users[uid].totalPoints) else None
  }

  // ---------------------------------------------------------------------------------------
  // Associations and scopes.

  /** `post.sympathies`: the ids of the sympathy rows on post `p`. */
  function SympathyIds(sympathies: map<Id, Sympathy>, p: Id): (r: set<Id>)
    ensures r <= sympathies.Keys
    ensures forall k | k in sympathies :: k in r <==> sympathies[k].postId == p
  {
    set k | k in sympathies && sympathies[k].postId == p
  }

  /** `post.replies`. */
  function ReplyIds(replies: map<Id, Reply>, p: Id): (r: set<Id>)
    ensures r <= replies.Keys
    ensures forall k | k in replies :: k in r <==> replies[k].postId == p
  {
    set k | k in replies && replies[k].postId == p
  }

  /** `post.replies.best_replies`. */
  function BestReplyIds(replies: map<Id, Reply>, p: Id): (r: set<Id>)
    ensures r <= ReplyIds(replies, p)
    ensures forall k | k in replies :: k in r <==> replies[k].postId == p && replies[k].isBest
  {
    set k | k in replies && replies[k].postId == p && replies[k].isBest
  }

  /** `Post.active_posts`. */
  function ActivePostIds(db: Db): (r: set<Id>)
    ensures r <= db.posts.Keys
    ensures forall k | k in db.posts :: k in r <==> db.posts[k].status == Active
  {
    set k | k in db.posts && db.posts[k].status == Active
  }

  /** `Post.resolved_posts`: together with the active posts, every post exactly once. */
  function ResolvedPostIds(db: Db): (r: set<Id>)
    ensures r == db.posts.Keys - ActivePostIds(db)
    ensures r !! ActivePostIds(db) && r + ActivePostIds(db) == db.posts.Keys
  {
    set k | k in db.posts && db.posts[k].status == Resolved
  }

  // ---------------------------------------------------------------------------------------
  // The store's invariant.

  predicate IdsBelowCounters(db: Db) {
    (forall k | k in db.users :: k < db.nextUserId)
    && (forall k | k in db.posts :: k < db.nextPostId)
    && (forall k | k in db.replies :: k < db.nextReplyId)
    && (forall k | k in db.sympathies :: k < db.nextSympathyId)
  }

  /** The foreign keys and the `belongs_to` validations. */
  predicate ReferencesIntact(db: Db) {
    (forall k | k in db.posts :: db.posts[k].userId in db.users)
    && (forall k | k in db.replies :: db.replies[k].postId in db.posts && db.replies[k].userId in db.users)
    && (forall k | k in db.sympathies :: db.sympathies[k].postId in db.posts && db.sympathies[k].userId in db.users)
  }

  /** The validations, the column limits and the unique index on email, which compares under
    * the case-insensitive collation. */
  predicate UsersValid(db: Db) {
    (forall k | k in db.users ::
      !IsBlank(db.users[k].email) && db.users[k].totalPoints >= 0 && FitsColumns(db.users[k]))
    && (forall k, j | k in db.users && j in db.users && k != j ::
      Lower(db.users[k].email) != Lower(db.users[j].email))
  }

  predicate PostsValid(db: Db) {
    forall k | k in db.posts :: PostFieldErrors(db.posts[k]) == []
  }

  predicate RepliesValid(db: Db) {
    forall k | k in db.replies :: ReplyFieldErrors(db.replies[k]) == []
  }

  /** The unique index on (user_id, post_id). */
  predicate SympathiesUnique(db: Db) {
    forall k, j | k in db.sympathies && j in db.sympathies && k != j ::
      db.sympathies[k].postId != db.sympathies[j].postId || db.sympathies[k].userId != db.sympathies[j].userId
  }

  /** The counter cache agrees with the rows. */
  predicate CountsInSync(db: Db) {
    forall k | k in db.posts :: db.posts[k].sympathyCount == |SympathyIds(db.sympathies, k)|
  }

  /** An active post has no best reply, a resolved post at most one. */
  predicate BestRepliesSound(db: Db) {
    forall k | k in db.posts ::
      (db.posts[k].status == Active ==> BestReplyIds(db.replies, k) == {})
      && |BestReplyIds(db.replies, k)| <= 1
  }

  predicate Consistent(db: Db) {
    IdsBelowCounters(db) && ReferencesIntact(db) && UsersValid(db) && PostsValid(db)
    && RepliesValid(db) && SympathiesUnique(db) && CountsInSync(db) && BestRepliesSound(db)
  }

  /** A resolved post has a best reply. */
  predicate ResolvedHaveBest(db: Db) {
    forall k | k in db.posts && db.posts[k].status == Resolved :: BestReplyIds(db.replies, k) != {}
  }

  /** The invariant of every store the workflows produce. */
  predicate Valid(db: Db) {
    Consistent(db) && ResolvedHaveBest(db)
  }

  /** The empty store. */
  const Empty: Db := Db(map[], map[], map[], map[], 0, 0, 0, 0)

  lemma EmptyValid()
    ensures Valid(Empty)
  {
  }

  /** In a valid store a resolved post has exactly one best reply and an active post none. */
  lemma {:induction false} BestReplyCount(db: Db, p: Id)
    requires Valid(db) && p in db.posts
    ensures |BestReplyIds(db.replies, p)| == if db.posts[p].status == Resolved then 1 else 0
  {
    if db.posts[p].status == Resolved {
      var b := BestReplyIds(db.replies, p);
      assert b != {};
      assert |b| != 0;
    }
  }

  /** In a consistent store a user has sympathised with a post at most once, and then the
    * sympathy row is the only one of that user on that post. */
  lemma {:induction false} SympathyRowUnique(db: Db, k: Id, j: Id)
    requires Consistent(db) && k in db.sympathies && j in db.sympathies
    requires db.sympathies[k].postId == db.sympathies[j].postId
    requires db.sympathies[k].userId == db.sympathies[j].userId
    ensures k == j
  {
  }

  // ---------------------------------------------------------------------------------------
  // How the id sets change when one row is added or removed.

  lemma {:induction false} SympathyIdsInsert(m: map<Id, Sympathy>, k: Id, s: Sympathy, p: Id)
    requires k !in m
    ensures SympathyIds(m[k := s], p) == if s.postId == p then SympathyIds(m, p) + {k} else SympathyIds(m, p)
    ensures |SympathyIds(m[k := s], p)| == |SympathyIds(m, p)| + (if s.postId == p then 1 else 0)
  {
    if s.postId == p {
      assert SympathyIds(m[k := s], p) == SympathyIds(m, p) + {k};
    } else {
      assert SympathyIds(m[k := s], p) == SympathyIds(m, p);
    }
  }

  lemma {:induction false} SympathyIdsRemove(m: map<Id, Sympathy>, k: Id, p: Id)
    requires k in m
    ensures SympathyIds(m - {k}, p) == SympathyIds(m, p) - {k}
    ensures |SympathyIds(m - {k}, p)| == |SympathyIds(m, p)| - (if m[k].postId == p then 1 else 0)
  {
    assert SympathyIds(m - {k}, p) == SympathyIds(m, p) - {k};
  }

  lemma {:induction false} BestReplyIdsInsert(m: map<Id, Reply>, k: Id, r: Reply, p: Id)
    requires k !in m
    ensures BestReplyIds(m[k := r], p) ==
      if r.postId == p && r.isBest then BestReplyIds(m, p) + {k} else BestReplyIds(m, p)
  {
  }

  /** Marking reply `k` best adds it to its own post's best replies and to no other post's. */
  lemma {:induction false} BestReplyIdsFlag(m: map<Id, Reply>, k: Id, p: Id)
    requires k in m
    ensures BestReplyIds(m[k := m[k].(isBest := true)], p) ==
      if m[k].postId == p then BestReplyIds(m, p) + {k} else BestReplyIds(m, p)
  {
  }

  // ---------------------------------------------------------------------------------------
  // Rows in id order: what `Post.all`, `User.all` enumerate before ordering.

  /** The ids of the rows of `m`, ascending, for a table whose ids are below `next`. */
  function IdsOf<V>(m: map<Id, V>, next: Id): (r: seq<Id>)
    ensures forall i | 0 <= i < |r| :: r[i] in m
  {
    Ordering.Filter(Ordering.Range(next), k => k in m)
  }

  /** Every row appears exactly once. */
  lemma {:induction false} IdsOfComplete<V>(m: map<Id, V>, next: Id, k: Id)
    requires forall j | j in m :: j < next
    ensures k in IdsOf(m, next) <==> k in m
    ensures Ordering.Distinct(IdsOf(m, next))
  {
    var ids := Ordering.Range(next);
    Ordering.FilterMultiset(ids, j => j in m, k);
    if k in m {
      assert ids[k] == k;
    }
    assert Ordering.Distinct(ids);
    Ordering.FilterDistinct(ids, j => j in m);
  }

  /** The listing depends on the table's ids only, not on its rows. */
  lemma IdsOfSameKeys<V>(m: map<Id, V>, m': map<Id, V>, next: Id)
    requires m.Keys == m'.Keys
    ensures IdsOf(m, next) == IdsOf(m', next)
  {
    Ordering.FilterAgree(Ordering.Range(next), k => k in m, k => k in m');
  }

  /** The listing has one entry per row of the table. */
  lemma IdsOfCount<V>(m: map<Id, V>, next: Id)
    requires forall j | j in m :: j < next
    ensures |IdsOf(m, next)| == |m.Keys|
  {
    var ids := IdsOf(m, next);
    forall k ensures k in ids <==> k in m {
      IdsOfComplete(m, next, k);
    }
    IdsOfComplete(m, next, 0);
    Ordering.DistinctCardinality<Id>(ids);
    assert (set x: Id | x in ids) == m.Keys;
  }

  /** A post with its id, as the listing, the serialisers and the stats see it. */
  datatype PostRow = PostRow(id: Id, post: Post)

  function PostRows(db: Db): (rows: seq<PostRow>)
    ensures |rows| == |IdsOf(db.posts, db.nextPostId)|
    ensures forall i | 0 <= i < |rows| ::
      rows[i].id == IdsOf(db.posts, db.nextPostId)[i] && rows[i].id in db.posts
      && rows[i].post == db.posts[rows[i].id]
  {
    var ids := IdsOf(db.posts, db.nextPostId);
    seq(|ids|, i requires 0 <= i < |ids| => PostRow(ids[i], db.posts[ids[i]]))
  }

  datatype ReplyRow = ReplyRow(id: Id, reply: Reply)

  function ReplyRows(db: Db): (rows: seq<ReplyRow>)
    ensures |rows| == |IdsOf(db.replies, db.nextReplyId)|
    ensures forall i | 0 <= i < |rows| ::
      rows[i].id == IdsOf(db.replies, db.nextReplyId)[i] && rows[i].id in db.replies
      && rows[i].reply == db.replies[rows[i].id]
  {
    var ids := IdsOf(db.replies, db.nextReplyId);
    seq(|ids|, i requires 0 <= i < |ids| => ReplyRow(ids[i], db.replies[ids[i]]))
  }

  datatype UserRow = UserRow(id: Id, user: User)

  function UserRows(db: Db): (rows: seq<UserRow>)
    ensures |rows| == |IdsOf(db.users, db.nextUserId)|
    ensures forall i | 0 <= i < |rows| ::
      rows[i].id == IdsOf(db.users, db.nextUserId)[i] && rows[i].id in db.users
      && rows[i].user == db.users[rows[i].id]
  {
    var ids := IdsOf(db.users, db.nextUserId);
    seq(|ids|, i requires 0 <= i < |ids| => UserRow(ids[i], db.users[ids[i]]))
  }

  /** Two categories the posts table's `utf8mb4_0900_ai_ci` collation holds equal, as far as
    * the model captures it: equal up to the case of ASCII letters. */
  predicate SameCategory(a: string, b: string) {
    Lower(a) == Lower(b)
  }

  /** `by_category(category)`: no filtering for a nil or blank category, otherwise the rows
    * whose category the database compares equal to it. */
  function ByCategory(rows: seq<PostRow>, category: Option<string>): (r: seq<PostRow>)
    ensures category.None? || IsBlank(category.value) ==> r == rows
    ensures category.Some? && !IsBlank(category.value) ==>
      r == Ordering.Filter(rows, (row: PostRow) => SameCategory(row.post.category, category.value))
  {
    if category.None? || IsBlank(category.value) then rows
    else Ordering.Filter(rows, (row: PostRow) => SameCategory(row.post.category, category.value))
  }

  /** `?category=LOVE` lists the posts stored under "love". */
  lemma ByCategoryIgnoresCase(row: PostRow)
    requires row.post.category == "love"
    ensures ByCategory([row], Some("LOVE")) == [row]
  {
    assert Lower("LOVE") == "love";
    assert Lower("love") == "love";
    assert !IsBlank("LOVE") by { assert !IsWhitespace("LOVE"[0]); }
    assert SameCategory(row.post.category, "LOVE");
  }

  /** `popular`: ordered by non-increasing sympathy_count. */
  function Popular(rows: seq<PostRow>): (r: seq<PostRow>)
    ensures Ordering.SortedDesc(r, (row: PostRow) => row.post.sympathyCount)
    ensures multiset(r) == multiset(rows)
  {
    Ordering.SortDesc(rows, (row: PostRow) => row.post.sympathyCount)
  }

  /** `Post.recent`: ordered by non-increasing created_at. */
  function RecentPosts(rows: seq<PostRow>): (r: seq<PostRow>)
    ensures Ordering.SortedDesc(r, (row: PostRow) => row.post.createdAt)
    ensures multiset(r) == multiset(rows)
  {
    Ordering.SortDesc(rows, (row: PostRow) => row.post.createdAt)
  }

  /** `Reply.recent`. */
  function RecentReplies(rows: seq<ReplyRow>): (r: seq<ReplyRow>)
    ensures Ordering.SortedDesc(r, (row: ReplyRow) => row.reply.createdAt)
    ensures multiset(r) == multiset(rows)
  {
    Ordering.SortDesc(rows, (row: ReplyRow) => row.reply.createdAt)
  }
}
