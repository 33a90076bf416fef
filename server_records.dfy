/**
 * The record-level operations of the server's models, as functions from a store to a store:
 * `create!` (validations, then the insert and the `after_create` callbacks), the sympathy
 * counter callbacks, `Post#resolve_with_best_reply!`, `User#add_points` and the cascading
 * destroys. A validation failure is returned as the list of errors with no change to the store.
 */
module ServerRecords {
  import opened Wrappers
  import opened Text
  import opened ServerModels

  /** `User#add_points(amount)`: `increment!(:total_points, amount)`, which writes the column
    * without running the validations. */
  function AddPoints(db: Db, uid: Id, amount: int): (r: Db)
    requires uid in db.users
    ensures r.users.Keys == db.users.Keys
    ensures r.users[uid].totalPoints == db.users[uid].totalPoints + amount
    ensures r.users[uid].email == db.users[uid].email && r.users[uid].nickname == db.users[uid].nickname
    ensures forall v | v in db.users && v != uid :: r.users[v] == db.users[v]
    ensures r == db.(users := r.users)
  {
    db.(users := db.users[uid := db.users[uid].(totalPoints := db.users[uid].totalPoints + amount)])
  }

  /** `increment!(:sympathy_count, delta)` / `decrement!` on post `pid`: a column write that
    * skips validations, so nothing stops the count from going below zero. */
  function BumpSympathyCount(db: Db, pid: Id, delta: int): (r: Db)
    requires pid in db.posts
    ensures r.posts.Keys == db.posts.Keys
    ensures r.posts[pid] == db.posts[pid].(sympathyCount := db.posts[pid].sympathyCount + delta)
    ensures forall q | q in db.posts && q != pid :: r.posts[q] == db.posts[q]
    ensures r == db.(posts := r.posts)
  {
    db.(posts := db.posts[pid := db.posts[pid].(sympathyCount := db.posts[pid].sympathyCount + delta)])
  }

  /** A new post row with the column defaults: status active, sympathy_count 0. */
  function NewPost(userId: Id, nickname: string, content: string, category: string, now: int): (p: Post)
    ensures p.status == Active && p.sympathyCount == 0
  {
    Post(userId, nickname, content, category, Active, 0, now)
  }

  /** A new reply row with the column default is_best false. */
  function NewReply(postId: Id, userId: Id, content: string, now: int): (r: Reply)
    ensures !r.isBest
  {
    Reply(postId, userId, content, false, now)
  }

  /** `Post.create!`: the validations, then the insert under the next id. */
  function CreatePostRecord(db: Db, p: Post): (r: Result<Db, seq<FieldError>>)
    ensures r.Failure? <==> PostErrors(db, p) != []
    ensures r.Failure? ==> r.error == PostErrors(db, p)
    ensures r.Success? ==>
      r.value == db.(posts := db.posts[db.nextPostId := p], nextPostId := db.nextPostId + 1)
  {
    var errs := PostErrors(db, p);
    if errs != [] then Failure(errs)
    else Success(db.(posts := db.posts[db.nextPostId := p], nextPostId := db.nextPostId + 1))
  }

  /** `post.replies.create!`: the validations, then the insert. The `before_create` callback
    * `ensure_post_is_active` adds an error for a resolved post but does not abort, so only the
    * validations decide. */
  function CreateReplyRecord(db: Db, r: Reply): (res: Result<Db, seq<FieldError>>)
    ensures res.Failure? <==> ReplyErrors(db, r) != []
    ensures res.Failure? ==> res.error == ReplyErrors(db, r)
    ensures res.Success? ==>
      res.value == db.(replies := db.replies[db.nextReplyId := r], nextReplyId := db.nextReplyId + 1)
  {
    var errs := ReplyErrors(db, r);
    if errs != [] then Failure(errs)
    else Success(db.(replies := db.replies[db.nextReplyId := r], nextReplyId := db.nextReplyId + 1))
  }

  /** The callback `ensure_post_is_active` does not keep a reply off a resolved post: a reply
    * that passes the validations is stored whatever the post's status. */
  lemma {:induction false} ReplyRecordIgnoresStatus(db: Db, r: Reply)
    requires r.postId in db.posts && db.posts[r.postId].status == Resolved
    requires r.userId in db.users && !IsBlank(r.content) && |r.content| <= 500
    ensures CreateReplyRecord(db, r).Success?
    ensures db.nextReplyId in CreateReplyRecord(db, r).value.replies
  {
    assert ReplyErrors(db, r) == [];
  }

  /** `post.sympathies.create!`: the validations (including the one-per-user uniqueness), the
    * insert, then `after_create`: the post's sympathy_count rises by one. */
  function CreateSympathyRecord(db: Db, s: Sympathy): (r: Result<Db, seq<FieldError>>)
    ensures r.Failure? <==> SympathyErrors(db, s) != []
    ensures r.Failure? ==> r.error == SympathyErrors(db, s)
    ensures r.Success? ==> s.postId in db.posts
    ensures r.Success? ==>
      r.value == BumpSympathyCount(
        db.(sympathies := db.sympathies[db.nextSympathyId := s], nextSympathyId := db.nextSympathyId + 1),
        s.postId, 1)
  {
    var errs := SympathyErrors(db, s);
    if errs != [] then Failure(errs)
    else
      var inserted := db.(sympathies := db.sympathies[db.nextSympathyId := s], nextSympathyId := db.nextSympathyId + 1);
      Success(BumpSympathyCount(inserted, s.postId, 1))
  }

  /** `sympathy.destroy`: the row goes, then `after_destroy`: its post's count drops by one,
    * with no floor. */
  function DestroySympathyRecord(db: Db, k: Id): (r: Db)
    requires k in db.sympathies && db.sympathies[k].postId in db.posts
    ensures r == BumpSympathyCount(db.(sympathies := db.sympathies - {k}), db.sympathies[k].postId, -1)
  {
    BumpSympathyCount(db.(sympathies := db.sympathies - {k}), db.sympathies[k].postId, -1)
  }

  /** Creating a sympathy and destroying that same row gives back the store it started from,
    * except for the advanced id counter: the count is where it was. */
  lemma {:induction false} CreateThenDestroySympathy(db: Db, s: Sympathy)
    requires IdsBelowCounters(db) && SympathyErrors(db, s) == []
    ensures CreateSympathyRecord(db, s).Success?
    ensures var db1 := CreateSympathyRecord(db, s).value;
      db.nextSympathyId in db1.sympathies && db1.sympathies[db.nextSympathyId].postId in db1.posts
      && DestroySympathyRecord(db1, db.nextSympathyId) == db.(nextSympathyId := db.nextSympathyId + 1)
  {
    var k := db.nextSympathyId;
    var db1 := CreateSympathyRecord(db, s).value;
    assert k !in db.sympathies;
    assert db1.sympathies - {k} == db.sympathies;
    var pid := s.postId;
    var p := db.posts[pid];
    assert db1.posts[pid] == p.(sympathyCount := p.sympathyCount + 1);
    assert p.(sympathyCount := p.sympathyCount + 1).(sympathyCount := p.sympathyCount + 1 - 1) == p;
    assert db1.posts[pid := p] == db.posts;
  }

  /** `Post#resolve_with_best_reply!(reply)`: in one transaction the post is saved as resolved
    * (validations run) and the reply is updated to is_best (validations run); if either fails
    * nothing is written. */
  function ResolveWithBestReply(db: Db, pid: Id, rid: Id): (r: Result<Db, seq<FieldError>>)
    requires pid in db.posts && rid in db.replies
    ensures r.Success? ==>
      r.value == db.(posts := db.posts[pid := db.posts[pid].(status := Resolved)],
                     replies := db.replies[rid := db.replies[rid].(isBest := true)])
    ensures r.Failure? <==>
      PostErrors(db, db.posts[pid]) != [] || ReplyErrors(db, db.replies[rid]) != []
  {
    var post := db.posts[pid].(status := Resolved);
    var postErrs := PostErrors(db, post);
    if postErrs != [] then Failure(postErrs)
    else
      var db1 := db.(posts := db.posts[pid := post]);
      var reply := db.replies[rid].(isBest := true);
      var replyErrs := ReplyErrors(db1, reply);
      if replyErrs != [] then Failure(replyErrs)
      else Success(db1.(replies := db1.replies[rid := reply]))
  }

  /** In a consistent store both saves of `resolve_with_best_reply!` pass their validations. */
  lemma {:induction false} ResolveSucceedsWhenConsistent(db: Db, pid: Id, rid: Id)
    requires Consistent(db) && pid in db.posts && rid in db.replies
    ensures ResolveWithBestReply(db, pid, rid).Success?
  {
    assert PostFieldErrors(db.posts[pid]) == [];
    assert ReplyFieldErrors(db.replies[rid]) == [];
  }

  /** `post.destroy`: `dependent: :destroy` removes the post's replies and sympathies with it
    * (the sympathies' decrements land on the post that is being removed). */
  function DestroyPostRecord(db: Db, pid: Id): (r: Db)
    ensures r.posts == db.posts - {pid}
    ensures forall k :: k in r.replies <==> k in db.replies && db.replies[k].postId != pid
    ensures forall k :: k in r.sympathies <==> k in db.sympathies && db.sympathies[k].postId != pid
    ensures forall k | k in r.replies :: r.replies[k] == db.replies[k]
    ensures forall k | k in r.sympathies :: r.sympathies[k] == db.sympathies[k]
    ensures r.users == db.users
  {
    db.(posts := db.posts - {pid},
        replies := map k | k in db.replies && db.replies[k].postId != pid :: db.replies[k],
        sympathies := map k | k in db.sympathies && db.sympathies[k].postId != pid :: db.sympathies[k])
  }

  /** The sympathy rows user `uid` has on post `p`. */
  function SympathiesBy(sympathies: map<Id, Sympathy>, p: Id, uid: Id): (r: set<Id>)
    ensures r <= SympathyIds(sympathies, p)
    ensures forall k | k in sympathies :: k in r <==> sympathies[k].postId == p && sympathies[k].userId == uid
  {
    set k | k in sympathies && sympathies[k].postId == p && sympathies[k].userId == uid
  }

  /** `user.destroy`: `dependent: :destroy` on posts (each taking its replies and sympathies
    * along), then on the user's remaining replies, then on the user's remaining sympathies,
    * each of which decrements the count of the post it was on. */
  function DestroyUserRecord(db: Db, uid: Id): (r: Db)
    ensures r.users == db.users - {uid}
    ensures forall k :: k in r.posts <==> k in db.posts && db.posts[k].userId != uid
    ensures forall k | k in r.posts ::
      r.posts[k] == db.posts[k].(sympathyCount :=
        db.posts[k].sympathyCount - |SympathiesBy(db.sympathies, k, uid)|)
    ensures forall k :: k in r.replies <==>
      k in db.replies && db.replies[k].userId != uid && db.replies[k].postId in r.posts
    ensures forall k :: k in r.sympathies <==>
      k in db.sympathies && db.sympathies[k].userId != uid && db.sympathies[k].postId in r.posts
    ensures forall k | k in r.replies :: r.replies[k] == db.replies[k]
    ensures forall k | k in r.sympathies :: r.sympathies[k] == db.sympathies[k]
  {
    var posts := map k | k in db.posts && db.posts[k].userId != uid ::
      db.posts[k].(sympathyCount := db.posts[k].sympathyCount - |SympathiesBy(db.sympathies, k, uid)|);
    db.(users := db.users - {uid},
        posts := posts,
        replies := map k | k in db.replies && db.replies[k].userId != uid && db.replies[k].postId in posts :: db.replies[k],
        sympathies := map k | k in db.sympathies && db.sympathies[k].userId != uid && db.sympathies[k].postId in posts :: db.sympathies[k])
  }
}
