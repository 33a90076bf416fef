/**
 * The server's workflows as functions from a store to a store and a result: post creation,
 * reply creation, giving and removing a sympathy, selecting the best reply, and the controller
 * level update and destroy operations. Each runs in one transaction: it either succeeds with
 * the new store or fails with the store it was given.
 */
module ServerServices {
  import opened Wrappers
  import opened Text
  import opened ServerModels
  import opened ServerRecords
  import Points
  import ContentFilters
  import NicknameGenerator

  /** Why a workflow failed; the fixed Japanese messages are given by `Message`. */
  datatype Failure =
    | Rejected(reason: ContentFilters.Reason)
    | Invalid(errors: seq<FieldError>)
    | PostAlreadyResolved
    | AlreadySympathized
    | AlreadyResolved
    | ReplyOfOtherPost
    | SympathyNotFound
    | ValueTooLong

  /** The `error:` text of the failures that carry a fixed message. */
  function Message(f: Failure): (m: Option<string>)
    ensures m.None? <==> f.Invalid? || f.ValueTooLong?
  {
    match f
    case Rejected(r) => Some(ContentFilters.ReasonMessage(r))
    case Invalid(_) => None
    case PostAlreadyResolved => Some("成仏済みの投稿にはリライト案を投稿できません")
    case AlreadySympathized => Some("既に供養済みです")
    case AlreadyResolved => Some("既に成仏済みです")
    case ReplyOfOtherPost => Some("このリライト案は他の投稿のものです")
    case SympathyNotFound => Some("供養が見つかりません")
    case ValueTooLong => None
  }

  /** The store after a workflow, and its result. */
  datatype Step<T> = Step(db: Db, result: Result<T, Failure>)

  datatype PostCreated = PostCreated(postId: Id, pointsEarned: Option<int>)
  datatype ReplyCreated = ReplyCreated(replyId: Id, pointsEarned: Option<int>)
  datatype SympathyGiven = SympathyGiven(sympathyCount: int, pointsEarned: int)
  datatype SympathyRemoved = SympathyRemoved(sympathyCount: int)
  datatype BestSelected = BestSelected(postPoints: Option<int>, replyPoints: Option<int>)

  // ---------------------------------------------------------------------------------------
  // The ledger applied to the store.

  /** `Points::CalculateService.call(user:, action:, amount:)` against the store: `add_points`
    * runs only for a positive amount. */
  function Award(db: Db, uid: Id, action: Points.Action, amount: Option<int>): (r: (Db, Points.LedgerResult))
    ensures r.1 == Points.Calculate(Balance(db, uid), action, amount)
    ensures r.1.LedgerError? ==> r.0 == db
    ensures r.1.Awarded? ==> uid in db.users && r.0 == AddPoints(db, uid, r.1.pointsAdded)
    ensures r.1.Awarded? ==> uid in r.0.users && r.0.users[uid].totalPoints == r.1.totalPoints
  {
    var l := Points.Calculate(Balance(db, uid), action, amount);
    if l.Awarded? && l.pointsAdded > 0 then (AddPoints(db, uid, l.pointsAdded), l)
    else
      assert l.Awarded? ==> db == AddPoints(db, uid, 0) by {
        if l.Awarded? {
          assert db.users[uid := db.users[uid].(totalPoints := db.users[uid].totalPoints + 0)] == db.users;
        }
      }
      (db, l)
  }

  /** `[:points_added]` of the ledger's hash: nil when the ledger failed. */
  function PointsAdded(l: Points.LedgerResult): (r: Option<int>)
    ensures r.Some? <==> l.Awarded?
    ensures r.Some? ==> r.value == l.pointsAdded
  {
    if l.Awarded? then Some(l.pointsAdded) else None
  }

  // ---------------------------------------------------------------------------------------
  // Posts::CreateService

  /** `Posts::CreateService.call(user:, content:, category:)`: the content filter, then
    * `Post.create!` with a generated nickname, then 10 points for the author. A nil category
    * fails the model's validations as a blank one does. */
  function CreatePost(db: Db, uid: Id, content: Option<string>, category: Option<string>,
                      draw: NicknameGenerator.Draw, now: int): (s: Step<PostCreated>)
    requires NicknameGenerator.ValidDraw(draw)
    ensures s.result.Failure? ==> s.db == db
    ensures ContentFilters.Validate(content).Failure? ==>
      s.result == Failure(Rejected(ContentFilters.Validate(content).error))
    ensures s.result.Success? ==> s.result.value.postId in s.db.posts
  {
    var v := ContentFilters.Validate(content);
    if v.Failure? then Step(db, Failure(Rejected(v.error)))
    else SavePost(db, NewPost(uid, NicknameGenerator.Generate(draw), content.value, category.GetOr(""), now))
  }

  /** The rest of the transaction once the content has passed: `Post.create!`, then the 10
    * points for the post's owner. */
  function SavePost(db: Db, post: Post): (s: Step<PostCreated>)
    ensures s.result.Failure? <==> PostErrors(db, post) != []
    ensures s.result.Failure? ==> s.db == db && s.result.error == Invalid(PostErrors(db, post))
    ensures s.result.Success? ==> s.result.value.postId == db.nextPostId && s.db.posts == db.posts[db.nextPostId := post]
  {
    match CreatePostRecord(db, post)
    case Failure(errs) => Step(db, Failure(Invalid(errs)))
    case Success(db1) =>
      var (db2, l) := Award(db1, post.userId, Points.PostCreated, Some(10));
      Step(db2, Success(PostCreated(db.nextPostId, PointsAdded(l))))
  }

  /** A generated nickname passes the post's nickname validations. */
  lemma GeneratedNicknameValid(d: NicknameGenerator.Draw)
    requires NicknameGenerator.ValidDraw(d)
    ensures !IsBlank(NicknameGenerator.Generate(d)) && |NicknameGenerator.Generate(d)| <= 50
  {
    var r := NicknameGenerator.Generate(d);
    assert r[|r| - 5] == '#';
  }

  /** Post creation succeeds exactly when the content passes the filter, the author exists, the
    * content is at most 1000 characters and the category is one of the six. */
  lemma {:induction false} CreatePostSucceedsIff(db: Db, uid: Id, content: Option<string>,
                                                 category: Option<string>, draw: NicknameGenerator.Draw, now: int)
    requires NicknameGenerator.ValidDraw(draw)
    ensures CreatePost(db, uid, content, category, draw, now).result.Success? <==>
      ContentFilters.Validate(content).Success? && uid in db.users
      && |content.GetOr("")| <= 1000 && category.GetOr("") in Categories
  {
    if ContentFilters.Validate(content).Success? {
      GeneratedNicknameValid(draw);
      NewPostAccepted(db, uid, NicknameGenerator.Generate(draw), content.value, category.GetOr(""), now);
    }
  }

  /** With a valid nickname and non-blank content, the insert of a new post succeeds exactly
    * when the owner exists, the content fits and the category is listed. */
  lemma {:induction false} NewPostAccepted(db: Db, uid: Id, nickname: string, content: string, category: string, now: int)
    requires !IsBlank(nickname) && |nickname| <= 50 && !IsBlank(content)
    ensures CreatePostRecord(db, NewPost(uid, nickname, content, category, now)).Success? <==>
      uid in db.users && |content| <= 1000 && category in Categories
  {
  }

  /** A successful post creation adds exactly one post, under the next id, owned by the author,
    * with the given content and category, the generated nickname, status active and count 0;
    * the author's points rise by exactly 10 and nothing else changes. */
  lemma {:induction false} CreatePostEffect(db: Db, uid: Id, content: Option<string>,
                                            category: Option<string>, draw: NicknameGenerator.Draw, now: int)
    requires NicknameGenerator.ValidDraw(draw) && IdsBelowCounters(db)
    requires CreatePost(db, uid, content, category, draw, now).result.Success?
    ensures var s := CreatePost(db, uid, content, category, draw, now);
      var id := s.result.value.postId;
      id == db.nextPostId && id !in db.posts
      && s.db.posts == db.posts[id := Post(uid, NicknameGenerator.Generate(draw), content.GetOr(""),
                                           category.GetOr(""), Active, 0, now)]
      && s.db.nextPostId == id + 1
      && uid in db.users && s.db.users.Keys == db.users.Keys
      && s.db.users[uid].totalPoints == db.users[uid].totalPoints + 10
      && (forall v | v in db.users && v != uid :: s.db.users[v] == db.users[v])
      && s.db.replies == db.replies && s.db.sympathies == db.sympathies
      && s.result.value.pointsEarned == Some(10)
  {
  }

  // ---------------------------------------------------------------------------------------
  // Replies::CreateService

  /** `Replies::CreateService.call(post:, user:, content:)`: refused outright for a resolved
    * post, then the content filter, `post.replies.create!`, and 5 points for the replier. */
  function CreateReply(db: Db, pid: Id, uid: Id, content: Option<string>, now: int): (s: Step<ReplyCreated>)
    requires pid in db.posts
    ensures s.result.Failure? ==> s.db == db
    ensures db.posts[pid].status == Resolved ==> s.result == Failure(PostAlreadyResolved)
    ensures db.posts[pid].status == Active && ContentFilters.Validate(content).Failure? ==>
      s.result == Failure(Rejected(ContentFilters.Validate(content).error))
    ensures s.result.Success? ==>
      s.result.value.replyId in s.db.replies && s.db.replies[s.result.value.replyId].postId == pid
  {
    if db.posts[pid].status == Resolved then Step(db, Failure(PostAlreadyResolved))
    else
      var v := ContentFilters.Validate(content);
      if v.Failure? then Step(db, Failure(Rejected(v.error)))
      else SaveReply(db, NewReply(pid, uid, content.value, now))
  }

  /** The transaction once the content has passed: `post.replies.create!`, then the
    * reply_created points for the replier. */
  function SaveReply(db: Db, reply: Reply): (s: Step<ReplyCreated>)
    ensures s.result.Failure? <==> ReplyErrors(db, reply) != []
    ensures s.result.Failure? ==> s.db == db && s.result.error == Invalid(ReplyErrors(db, reply))
    ensures s.result.Success? ==> s.result.value.replyId == db.nextReplyId && s.db.replies == db.replies[db.nextReplyId := reply]
  {
    match CreateReplyRecord(db, reply)
    case Failure(errs) => Step(db, Failure(Invalid(errs)))
    case Success(db1) =>
      var (db2, l) := Award(db1, reply.userId, Points.ReplyCreated, None);
      Step(db2, Success(ReplyCreated(db.nextReplyId, PointsAdded(l))))
  }

  /** Reply creation succeeds exactly when the post is active, the content passes the filter,
    * the replier exists and the content is at most 500 characters. */
  lemma {:induction false} CreateReplySucceedsIff(db: Db, pid: Id, uid: Id, content: Option<string>, now: int)
    requires pid in db.posts
    ensures CreateReply(db, pid, uid, content, now).result.Success? <==>
      db.posts[pid].status == Active && ContentFilters.Validate(content).Success?
      && uid in db.users && |content.GetOr("")| <= 500
  {
  }

  /** A successful reply adds exactly one reply, on that post, by that user, not best; the
    * replier's points rise by exactly 5 and nothing else changes. */
  lemma {:induction false} CreateReplyEffect(db: Db, pid: Id, uid: Id, content: Option<string>, now: int)
    requires pid in db.posts && IdsBelowCounters(db)
    requires CreateReply(db, pid, uid, content, now).result.Success?
    ensures var s := CreateReply(db, pid, uid, content, now);
      var id := s.result.value.replyId;
      id == db.nextReplyId && id !in db.replies
      && s.db.replies == db.replies[id := Reply(pid, uid, content.GetOr(""), false, now)]
      && uid in db.users && s.db.users.Keys == db.users.Keys
      && s.db.users[uid].totalPoints == db.users[uid].totalPoints + 5
      && (forall v | v in db.users && v != uid :: s.db.users[v] == db.users[v])
      && s.db.posts == db.posts && s.db.sympathies == db.sympathies
      && s.result.value.pointsEarned == Some(5)
  {
    Points.DefaultAmounts();
  }

  // ---------------------------------------------------------------------------------------
  // Sympathies::CreateService and SympathiesController#destroy

  /** `Sympathies::CreateService.call(post:, user:)`: refused when the user already has a
    * sympathy on the post; otherwise the row is created (the callback raises the count), the
    * post's owner gets the sympathy_received points, and the result carries the reloaded count
    * and a fixed `points_earned: 1`. */
  function GiveSympathy(db: Db, pid: Id, uid: Id, now: int): (s: Step<SympathyGiven>)
    requires pid in db.posts
    ensures s.result.Failure? ==> s.db == db
    ensures HasSympathized(db, pid, uid) <==> s.result == Failure(AlreadySympathized)
    ensures s.result.Success? ==> s.result.value.pointsEarned == 1
  {
    if HasSympathized(db, pid, uid) then Step(db, Failure(AlreadySympathized))
    else SaveSympathy(db, Sympathy(pid, uid, now))
  }

  /** The transaction after the repeat guard: `post.sympathies.create!` (the callback raises
    * the count), the owner's points, then the reloaded count and the fixed 1. */
  function SaveSympathy(db: Db, row: Sympathy): (s: Step<SympathyGiven>)
    ensures s.result.Failure? <==> SympathyErrors(db, row) != []
    ensures s.result.Failure? ==> s.db == db && s.result.error == Invalid(SympathyErrors(db, row))
    ensures s.result.Success? ==> s.result.value.pointsEarned == 1
  {
    match CreateSympathyRecord(db, row)
    case Failure(errs) => Step(db, Failure(Invalid(errs)))
    case Success(db1) =>
      var (db2, _) := Award(db1, db1.posts[row.postId].userId, Points.SympathyReceived, None);
      Step(db2, Success(SympathyGiven(db2.posts[row.postId].sympathyCount, 1)))
  }

  /** A successful sympathy adds one row for (post, user), raises that post's count by one
    * (and no other post's), reports the new count, and gives the post's owner, not the giver,
    * one point. Sympathising with one's own post is not refused. */
  lemma {:induction false} GiveSympathyEffect(db: Db, pid: Id, uid: Id, now: int)
    requires IdsBelowCounters(db) && ReferencesIntact(db)
    requires pid in db.posts && uid in db.users && !HasSympathized(db, pid, uid)
    ensures var s := GiveSympathy(db, pid, uid, now);
      var owner := db.posts[pid].userId;
      s.result.Success?
      && s.db.sympathies == db.sympathies[db.nextSympathyId := Sympathy(pid, uid, now)]
      && db.nextSympathyId !in db.sympathies && s.db.nextSympathyId == db.nextSympathyId + 1
      && s.db.posts.Keys == db.posts.Keys
      && s.db.posts[pid] == db.posts[pid].(sympathyCount := db.posts[pid].sympathyCount + 1)
      && (forall q | q in db.posts && q != pid :: s.db.posts[q] == db.posts[q])
      && s.result.value.sympathyCount == db.posts[pid].sympathyCount + 1
      && owner in db.users && s.db.users.Keys == db.users.Keys
      && s.db.users[owner].totalPoints == db.users[owner].totalPoints + 1
      && (forall v | v in db.users && v != owner :: s.db.users[v] == db.users[v])
      && s.db.replies == db.replies
  {
    var row := Sympathy(pid, uid, now);
    assert SympathyErrors(db, row) == [];
    var db1 := CreateSympathyRecord(db, row).value;
    var owner := db.posts[pid].userId;
    assert db1.posts[pid].userId == owner;
    Points.DefaultAmounts();
    var (db2, l) := Award(db1, owner, Points.SympathyReceived, None);
    assert l == Points.Awarded(1, db.users[owner].totalPoints + 1);
    assert GiveSympathy(db, pid, uid, now) == Step(db2, Success(SympathyGiven(db2.posts[pid].sympathyCount, 1)));
  }

  /** The least id in `from .. next - 1` naming a sympathy row of `uid` on `pid`. */
  function FirstSympathy(m: map<Id, Sympathy>, pid: Id, uid: Id, from: Id, next: Id): (r: Option<Id>)
    decreases next - from
    ensures r.Some? ==>
      from <= r.value < next && r.value in m && m[r.value].postId == pid && m[r.value].userId == uid
    ensures r.None? ==>
      forall k | from <= k < next && k in m :: m[k].postId != pid || m[k].userId != uid
  {
    if from >= next then None
    else if from in m && m[from].postId == pid && m[from].userId == uid then Some(from)
    else FirstSympathy(m, pid, uid, from + 1, next)
  }

  /** `@post.sympathies.find_by(user: current_user)`, looking through the rows in id order. */
  function FindSympathy(db: Db, pid: Id, uid: Id): (r: Option<Id>)
    ensures r.Some? ==>
      r.value in db.sympathies && db.sympathies[r.value].postId == pid && db.sympathies[r.value].userId == uid
    ensures IdsBelowCounters(db) ==> (r.None? <==> !HasSympathized(db, pid, uid))
  {
    FirstSympathy(db.sympathies, pid, uid, 0, db.nextSympathyId)
  }

  /** `SympathiesController#destroy`: the user's sympathy row on the post is destroyed (the
    * callback lowers the count) and the reloaded count is returned; without such a row the
    * answer is "not found". No points are taken back. */
  function RemoveSympathy(db: Db, pid: Id, uid: Id): (s: Step<SympathyRemoved>)
    requires pid in db.posts
    ensures s.result.Failure? ==> s.db == db && s.result.error == SympathyNotFound
    ensures s.db.users == db.users
  {
    match FindSympathy(db, pid, uid)
    case None => Step(db, Failure(SympathyNotFound))
    case Some(k) =>
      var db1 := DestroySympathyRecord(db, k);
      Step(db1, Success(SympathyRemoved(db1.posts[pid].sympathyCount)))
  }

  /** Removing succeeds exactly when the user has a sympathy on the post, and then lowers that
    * post's count by exactly one, with no floor at zero. */
  lemma {:induction false} RemoveSympathyEffect(db: Db, pid: Id, uid: Id)
    requires IdsBelowCounters(db) && pid in db.posts
    ensures var s := RemoveSympathy(db, pid, uid);
      (s.result.Success? <==> HasSympathized(db, pid, uid))
      && (s.result.Success? ==>
            s.db.posts.Keys == db.posts.Keys
            && s.db.posts[pid] == db.posts[pid].(sympathyCount := db.posts[pid].sympathyCount - 1)
            && (forall q | q in db.posts && q != pid :: s.db.posts[q] == db.posts[q])
            && s.result.value.sympathyCount == db.posts[pid].sympathyCount - 1
            && |s.db.sympathies| == |db.sympathies| - 1)
  {
    match FindSympathy(db, pid, uid)
    case None =>
    case Some(k) =>
      assert db.sympathies.Keys - {k} == (db.sympathies - {k}).Keys;
  }

  /** Giving a sympathy and then removing it as the same user brings the post's count, and
    * every sympathy row, back to where they were; the owner keeps the point. */
  lemma {:induction false} GiveThenRemoveRestoresCount(db: Db, pid: Id, uid: Id, now: int)
    requires IdsBelowCounters(db) && ReferencesIntact(db)
    requires pid in db.posts && uid in db.users && !HasSympathized(db, pid, uid)
    ensures var s1 := GiveSympathy(db, pid, uid, now);
      var s2 := RemoveSympathy(s1.db, pid, uid);
      var owner := db.posts[pid].userId;
      s1.result.Success? && s2.result.Success?
      && s2.result.value.sympathyCount == db.posts[pid].sympathyCount
      && s2.db.posts == db.posts && s2.db.sympathies == db.sympathies
      && owner in s2.db.users && s2.db.users[owner].totalPoints == db.users[owner].totalPoints + 1
  {
    var k := db.nextSympathyId;
    var s1 := GiveSympathy(db, pid, uid, now);
    GiveSympathyEffect(db, pid, uid, now);
    var db1 := s1.db;
    assert IdsBelowCounters(db1) by {
      assert forall j | j in db1.sympathies :: j < db1.nextSympathyId;
    }
    FindsOnlyRow(db1, k, pid, uid);
    RemoveFoundRow(db1, pid, uid, k);
    DestroyInsertedRow(db, db1, k, pid);
  }

  lemma {:induction false} RemoveFoundRow(db: Db, pid: Id, uid: Id, k: Id)
    requires pid in db.posts && FindSympathy(db, pid, uid) == Some(k)
    ensures var db1 := DestroySympathyRecord(db, k);
      pid in db1.posts && RemoveSympathy(db, pid, uid) == Step(db1, Success(SympathyRemoved(db1.posts[pid].sympathyCount)))
  {
  }

  /** Destroying the row just inserted undoes the insert and its count increment. */
  lemma {:induction false} DestroyInsertedRow(db: Db, db1: Db, k: Id, pid: Id)
    requires pid in db.posts && k !in db.sympathies
    requires k in db1.sympathies && db1.sympathies[k].postId == pid
    requires db1.sympathies == db.sympathies[k := db1.sympathies[k]]
    requires db1.posts.Keys == db.posts.Keys
    requires db1.posts[pid] == db.posts[pid].(sympathyCount := db.posts[pid].sympathyCount + 1)
    requires forall q | q in db.posts && q != pid :: db1.posts[q] == db.posts[q]
    ensures DestroySympathyRecord(db1, k).posts == db.posts
    ensures DestroySympathyRecord(db1, k).sympathies == db.sympathies
    ensures DestroySympathyRecord(db1, k).users == db1.users
  {
    var p := db.posts[pid];
    assert db1.sympathies - {k} == db.sympathies;
    assert p.(sympathyCount := p.sympathyCount + 1).(sympathyCount := p.sympathyCount + 1 - 1) == p;
    assert db1.posts[pid := p] == db.posts;
  }

  /** The search finds a row that is the only one of that user on that post. */
  lemma {:induction false} FindsOnlyRow(db: Db, k: Id, pid: Id, uid: Id)
    requires IdsBelowCounters(db) && k in db.sympathies
    requires db.sympathies[k].postId == pid && db.sympathies[k].userId == uid
    requires forall j | j in db.sympathies && j != k ::
      db.sympathies[j].postId != pid || db.sympathies[j].userId != uid
    ensures FindSympathy(db, pid, uid) == Some(k)
  {
    assert HasSympathized(db, pid, uid);
  }

  // ---------------------------------------------------------------------------------------
  // Replies::SelectBestService

  /** `Replies::SelectBestService.call(post:, reply:)`: refused for a resolved post, then for
    * a reply of another post (in that order); otherwise the post is resolved with the reply
    * as best, the owner gets the best_answer_selected points and the reply's author the
    * best_answer_received points. */
  function SelectBest(db: Db, pid: Id, rid: Id): (s: Step<BestSelected>)
    requires pid in db.posts && rid in db.replies
    ensures s.result.Failure? ==> s.db == db
    ensures db.posts[pid].status == Resolved ==> s.result == Failure(AlreadyResolved)
    ensures db.posts[pid].status == Active && db.replies[rid].postId != pid ==>
      s.result == Failure(ReplyOfOtherPost)
  {
    if db.posts[pid].status == Resolved then Step(db, Failure(AlreadyResolved))
    else if db.replies[rid].postId != pid then Step(db, Failure(ReplyOfOtherPost))
    else SaveBest(db, pid, rid)
  }

  /** The transaction after the guards: the resolution, then the owner's and the author's
    * awards. */
  function SaveBest(db: Db, pid: Id, rid: Id): (s: Step<BestSelected>)
    requires pid in db.posts && rid in db.replies
    ensures s.result.Failure? ==> s.db == db && s.result.error.Invalid?
    ensures s.result.Failure? <==> ResolveWithBestReply(db, pid, rid).Failure?
  {
    match ResolveWithBestReply(db, pid, rid)
    case Failure(errs) => Step(db, Failure(Invalid(errs)))
    case Success(db1) =>
      var (db2, l1) := Award(db1, db.posts[pid].userId, Points.BestAnswerSelected, None);
      var (db3, l2) := Award(db2, db.replies[rid].userId, Points.BestAnswerReceived, None);
      Step(db3, Success(BestSelected(PointsAdded(l1), PointsAdded(l2))))
  }

  /** In a consistent store, selecting a reply of an active post succeeds: the post becomes
    * resolved, the reply becomes best, the owner gains 50 and the author 30 (80 when they are
    * the same user), and the result reports 50 and 30. */
  lemma {:induction false} SelectBestEffect(db: Db, pid: Id, rid: Id)
    requires Consistent(db) && pid in db.posts && rid in db.replies
    requires db.posts[pid].status == Active && db.replies[rid].postId == pid
    ensures var s := SelectBest(db, pid, rid);
      var owner := db.posts[pid].userId;
      var author := db.replies[rid].userId;
      s.result == Success(BestSelected(Some(50), Some(30)))
      && s.db.posts == db.posts[pid := db.posts[pid].(status := Resolved)]
      && s.db.replies == db.replies[rid := db.replies[rid].(isBest := true)]
      && s.db.sympathies == db.sympathies
      && owner in db.users && author in db.users && s.db.users.Keys == db.users.Keys
      && s.db.users[owner].totalPoints == db.users[owner].totalPoints + (if owner == author then 80 else 50)
      && s.db.users[author].totalPoints == db.users[author].totalPoints + (if owner == author then 80 else 30)
      && (forall v | v in db.users && v != owner && v != author :: s.db.users[v] == db.users[v])
  {
    ResolveSucceedsWhenConsistent(db, pid, rid);
    Points.DefaultAmounts();
  }

  /** Once a post is resolved every later selection on it fails and leaves the store as it is,
    * and so does every later reply. */
  lemma {:induction false} SelectThenRefuse(db: Db, pid: Id, rid: Id, rid2: Id, uid: Id,
                                            content: Option<string>, now: int)
    requires pid in db.posts && rid in db.replies && SelectBest(db, pid, rid).result.Success?
    ensures var db1 := SelectBest(db, pid, rid).db;
      pid in db1.posts && db1.posts[pid].status == Resolved
      && (rid2 in db1.replies ==> SelectBest(db1, pid, rid2) == Step(db1, Failure(AlreadyResolved)))
      && CreateReply(db1, pid, uid, content, now) == Step(db1, Failure(PostAlreadyResolved))
  {
  }

  // ---------------------------------------------------------------------------------------
  // PostsController#update and #destroy, ProfilesController#update

  /** `@post.update(post_params)`: only content and category are permitted; the model's
    * validations run, the content filter does not. */
  function UpdatePost(db: Db, pid: Id, content: Option<string>, category: Option<string>): (s: Step<Id>)
    requires pid in db.posts
    ensures s.result.Failure? ==> s.db == db && s.result.error.Invalid?
    ensures var p := db.posts[pid];
      var post := p.(content := content.GetOr(p.content), category := category.GetOr(p.category));
      (s.result.Success? <==> PostErrors(db, post) == [])
      && (s.result.Failure? ==> s.result.error.errors == PostErrors(db, post))
  {
    var before := db.posts[pid];
    var post := before.(content := content.GetOr(before.content), category := category.GetOr(before.category));
    var errs := PostErrors(db, post);
    if errs != [] then Step(db, Failure(Invalid(errs)))
    else Step(db.(posts := db.posts[pid := post]), Success(pid))
  }

  /** An update changes at most the content and the category of that one post: never its
    * owner, nickname, status, count or date, and nothing else in the store. */
  lemma {:induction false} UpdatePostTouchesContentAndCategoryOnly(db: Db, pid: Id, content: Option<string>,
                                                                   category: Option<string>)
    requires pid in db.posts
    ensures var s := UpdatePost(db, pid, content, category);
      var p := db.posts[pid];
      s.db.posts.Keys == db.posts.Keys
      && (forall q | q in db.posts && q != pid :: s.db.posts[q] == db.posts[q])
      && s.db.posts[pid] == p.(content := s.db.posts[pid].content, category := s.db.posts[pid].category)
      && s.db == db.(posts := s.db.posts)
      && (s.result.Success? ==> s.db.posts[pid].content == content.GetOr(p.content)
                                && s.db.posts[pid].category == category.GetOr(p.category))
  {
  }

  /** The content filter does not guard updates: a post can be edited to contain an NG word
    * that post creation would refuse. */
  lemma UpdateBypassesContentFilter(db: Db, pid: Id, uid: Id, draw: NicknameGenerator.Draw, now: int)
    requires PostsValid(db) && ReferencesIntact(db) && pid in db.posts && NicknameGenerator.ValidDraw(draw)
    ensures UpdatePost(db, pid, Some("バカ"), None).result.Success?
    ensures CreatePost(db, uid, Some("バカ"), Some("love"), draw, now).result == Failure(Rejected(ContentFilters.NgWordFound))
  {
    ContentFilters.BareNgWordRefused();
    var p := db.posts[pid];
    assert PostFieldErrors(p) == [];
    var q := p.(content := "バカ");
    assert !IsBlank(q.content) by { assert !IsWhitespace(q.content[0]); }
    assert PostErrors(db, q) == [];
  }

  /** `@post.destroy`. */
  function DestroyPost(db: Db, pid: Id): (s: Step<()>)
    ensures s.result.Success?
    ensures s.db.posts == db.posts - {pid}
    ensures ReplyIds(s.db.replies, pid) == {} && SympathyIds(s.db.sympathies, pid) == {}
  {
    Step(DestroyPostRecord(db, pid), Success(()))
  }

  /** The row `current_user.update(profile_params)` tries to save: only email and nickname
    * are permitted, and Devise normalises a given email first. */
  function ProfileChange(before: User, email: Option<string>, nickname: Option<Option<string>>): (u: User)
    ensures u.totalPoints == before.totalPoints
    ensures email.None? ==> u.email == before.email
    ensures email.Some? ==> u.email == NormalizedEmail(email.value)
    ensures u.nickname == nickname.GetOr(before.nickname)
  {
    before.(email := if email.Some? then NormalizedEmail(email.value) else before.email,
            nickname := nickname.GetOr(before.nickname))
  }

  /** `current_user.update(profile_params)`: the validations decide; a row that passes them but
    * does not fit its columns makes the database raise `ActiveRecord::ValueTooLong`. Only
    * that user's email and nickname can change. */
  function UpdateProfile(db: Db, uid: Id, email: Option<string>, nickname: Option<Option<string>>): (s: Step<Id>)
    requires uid in db.users
    ensures var u := ProfileChange(db.users[uid], email, nickname);
      (s.result.Success? <==> UserErrors(db, uid, u) == [] && FitsColumns(u))
      && (s.result == Failure(Invalid(UserErrors(db, uid, u))) <==> UserErrors(db, uid, u) != [])
      && (s.result == Failure(ValueTooLong) <==> UserErrors(db, uid, u) == [] && !FitsColumns(u))
      && (s.result.Success? ==> s.result.value == uid)
      && s.db == if s.result.Success? then db.(users := db.users[uid := u]) else db
  {
    var user := ProfileChange(db.users[uid], email, nickname);
    var errs := UserErrors(db, uid, user);
    if errs != [] then Step(db, Failure(Invalid(errs)))
    else if !FitsColumns(user) then Step(db, Failure(ValueTooLong))
    else Step(db.(users := db.users[uid := user]), Success(uid))
  }

  /** A profile update changes no table but users, no user but the current one, and never
    * the balance. */
  lemma UpdateProfileTouchesOneUser(db: Db, uid: Id, email: Option<string>, nickname: Option<Option<string>>)
    requires uid in db.users
    ensures var s := UpdateProfile(db, uid, email, nickname);
      s.db.users.Keys == db.users.Keys
      && s.db.users[uid].totalPoints == db.users[uid].totalPoints
      && (forall v | v in db.users && v != uid :: s.db.users[v] == db.users[v])
      && s.db == db.(users := s.db.users)
  {
  }

  /** A non-blank address that does not match Devise's pattern is refused once it differs from
    * the stored one. */
  lemma UpdateProfileRefusesMalformedEmail(db: Db, uid: Id, email: string)
    requires uid in db.users && !IsBlank(NormalizedEmail(email)) && !EmailFormat(NormalizedEmail(email))
    requires NormalizedEmail(email) != db.users[uid].email
    ensures var s := UpdateProfile(db, uid, Some(email), None);
      s.db == db && s.result.Failure? && s.result.error.Invalid? && EmailInvalid in s.result.error.errors
  {
    UserErrorsNamed(db, uid, ProfileChange(db.users[uid], Some(email), None));
  }

  /** Another user's address with its letters in another case is taken. */
  lemma UpdateProfileRefusesEmailInOtherCase(db: Db, uid: Id, other: Id, email: string)
    requires uid in db.users && other in db.users && other != uid
    requires Lower(NormalizedEmail(email)) == Lower(db.users[other].email)
    ensures var s := UpdateProfile(db, uid, Some(email), None);
      s.db == db && s.result.Failure? && s.result.error.Invalid? && EmailTaken in s.result.error.errors
  {
    var u := ProfileChange(db.users[uid], Some(email), None);
    assert EmailTakenIgnoringCase(db, uid, u.email);
    UserErrorsNamed(db, uid, u);
  }

  /** In a consistent store, a nickname over 30 characters passes the validations and then
    * fails at the database, leaving the store as it was. */
  lemma UpdateProfileNicknameTooLong(db: Db, uid: Id, nickname: string)
    requires UsersValid(db) && uid in db.users && |nickname| > NicknameLimit
    ensures UpdateProfile(db, uid, None, Some(Some(nickname))) == Step(db, Failure(ValueTooLong))
  {
    var u := ProfileChange(db.users[uid], None, Some(Some(nickname)));
    assert !EmailTakenIgnoringCase(db, uid, u.email);
    assert UserErrors(db, uid, u) == [];
  }

  /** A successful update stores an email in normal form, well formed unless it is the one
    * already stored, and distinct up to case from every other user's. */
  lemma UpdateProfileStoresNormalEmail(db: Db, uid: Id, email: string, nickname: Option<Option<string>>)
    requires uid in db.users && UpdateProfile(db, uid, Some(email), nickname).result.Success?
    ensures var stored := UpdateProfile(db, uid, Some(email), nickname).db.users[uid].email;
      NormalizedEmail(stored) == stored && (stored != db.users[uid].email ==> EmailFormat(stored))
      && forall v | v in db.users && v != uid :: Lower(db.users[v].email) != Lower(stored)
  {
    NormalizedEmailIdempotent(email);
  }

  /** `user.destroy` as a workflow. */
  function DestroyUser(db: Db, uid: Id): (s: Step<()>)
    ensures s.result.Success?
    ensures s.db.users == db.users - {uid}
    ensures forall k | k in s.db.posts :: s.db.posts[k].userId != uid
    ensures forall k | k in s.db.replies :: s.db.replies[k].userId != uid
    ensures forall k | k in s.db.sympathies :: s.db.sympathies[k].userId != uid
  {
    Step(DestroyUserRecord(db, uid), Success(()))
  }
}
