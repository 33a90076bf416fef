/**
 * The server's database as an object: one map per table from id to row, and the next
 * auto-increment id of each table. Each method performs one model callback, one service or one
 * controller action step by step, the way the Ruby code does, and is proved to leave the store
 * exactly as the corresponding function of ServerRecords / ServerServices says. A transaction
 * that fails returns before its first write, so a failure leaves every field as it was.
 */
module ServerStore {
  import opened Wrappers
  import opened ServerModels
  import opened ServerServices
  import ServerRecords
  import ServerInvariants
  import Points
  import ContentFilters
  import NicknameGenerator

  class Store {
    var users: map<Id, User>
    var posts: map<Id, Post>
    var replies: map<Id, Reply>
    var sympathies: map<Id, Sympathy>
    var nextUserId: Id
    var nextPostId: Id
    var nextReplyId: Id
    var nextSympathyId: Id

    /** The tables as a value. */
    function Snapshot(): Db
      reads this
    {
      Db(users, posts, replies, sympathies, nextUserId, nextPostId, nextReplyId, nextSympathyId)
    }

    /** The invariant every workflow keeps. */
    ghost predicate Valid()
      reads this
    {
      ServerModels.Valid(Snapshot())
    }

    /** A freshly migrated database: every table empty. */
    constructor()
      ensures Snapshot() == Empty && Valid()
    {
      users, posts, replies, sympathies := map[], map[], map[], map[];
      nextUserId, nextPostId, nextReplyId, nextSympathyId := 0, 0, 0, 0;
    }

    // -------------------------------------------------------------------------------------
    // Column writes and callbacks.

    /** `User#add_points(amount)`: `increment!(:total_points, amount)`. */
    method AddPoints(uid: Id, amount: int)
      requires uid in users
      modifies this
      ensures Snapshot() == ServerRecords.AddPoints(old(Snapshot()), uid, amount)
    {
      users := users[uid := users[uid].(totalPoints := users[uid].totalPoints + amount)];
    }

    /** `increment!` / `decrement!` of a post's sympathy_count, as the sympathy callbacks and
      * `Post#increment_sympathy_count!` do it. */
    method BumpSympathyCount(pid: Id, delta: int)
      requires pid in posts
      modifies this
      ensures Snapshot() == ServerRecords.BumpSympathyCount(old(Snapshot()), pid, delta)
    {
      posts := posts[pid := posts[pid].(sympathyCount := posts[pid].sympathyCount + delta)];
    }

    /** `Points::CalculateService.call(user:, action:, amount:)`: the amount is resolved, and
      * `add_points` runs only when it is positive; a missing user is the rescued error. */
    method Calculate(uid: Id, action: Points.Action, amount: Option<int>) returns (l: Points.LedgerResult)
      modifies this
      ensures (Snapshot(), l) == Award(old(Snapshot()), uid, action, amount)
      ensures forall v | v in old(users) :: v in users && users[v].totalPoints >= old(users[v].totalPoints)
    {
      if uid !in users {
        return Points.LedgerError;
      }
      var toAdd := Points.ResolveAmount(action, amount);
      if toAdd > 0 {
        AddPoints(uid, toAdd);
        l := Points.Awarded(toAdd, users[uid].totalPoints);
      } else {
        l := Points.Awarded(0, users[uid].totalPoints);
        assert users[uid := users[uid].(totalPoints := users[uid].totalPoints + 0)] == users;
      }
    }

    /** `Post#resolve_with_best_reply!(reply)`: the post is saved as resolved and the reply as
      * best inside one transaction; the first failing validation aborts it before any write. */
    method ResolveWithBestReply(pid: Id, rid: Id) returns (r: Result<(), seq<FieldError>>)
      requires pid in posts && rid in replies
      modifies this
      ensures var f := ServerRecords.ResolveWithBestReply(old(Snapshot()), pid, rid);
        (r.Success? <==> f.Success?) && (r.Failure? ==> r.error == f.error)
        && Snapshot() == (if f.Success? then f.value else old(Snapshot()))
    {
      var post := posts[pid].(status := Resolved);
      var postErrs := PostErrors(Snapshot(), post);
      if postErrs != [] {
        return Failure(postErrs);
      }
      var reply := replies[rid].(isBest := true);
      var replyErrs := ReplyErrors(Snapshot().(posts := posts[pid := post]), reply);
      if replyErrs != [] {
        return Failure(replyErrs);
      }
      posts := posts[pid := post];
      replies := replies[rid := reply];
      r := Success(());
    }

    /** `post.sympathies.find_by(user:)`: the rows are looked at in id order and the first of
      * that user on that post is returned. */
    method FindSympathy(pid: Id, uid: Id) returns (r: Option<Id>)
      ensures r == ServerServices.FindSympathy(Snapshot(), pid, uid)
    {
      var k := 0;
      while k < nextSympathyId
        invariant k <= nextSympathyId
        invariant FirstSympathy(sympathies, pid, uid, k, nextSympathyId) == FirstSympathy(sympathies, pid, uid, 0, nextSympathyId)
        decreases nextSympathyId - k
      {
        if k in sympathies && sympathies[k].postId == pid && sympathies[k].userId == uid {
          return Some(k);
        }
        k := k + 1;
      }
      r := None;
    }

    /** `sympathy.destroy`: the row goes, then `after_destroy` decrements its post's count. */
    method DestroySympathy(k: Id)
      requires k in sympathies && sympathies[k].postId in posts
      modifies this
      ensures Snapshot() == ServerRecords.DestroySympathyRecord(old(Snapshot()), k)
    {
      var pid := sympathies[k].postId;
      sympathies := sympathies - {k};
      BumpSympathyCount(pid, -1);
    }

    // -------------------------------------------------------------------------------------
    // The services.

    /** `Posts::CreateService.call`: the content filter, then the transaction. */
    method CreatePost(uid: Id, content: Option<string>, category: Option<string>,
                      draw: NicknameGenerator.Draw, now: int) returns (result: Result<PostCreated, ServerServices.Failure>)
      requires NicknameGenerator.ValidDraw(draw)
      modifies this
      ensures Snapshot() == ServerServices.CreatePost(old(Snapshot()), uid, content, category, draw, now).db
      ensures result == ServerServices.CreatePost(old(Snapshot()), uid, content, category, draw, now).result
      ensures old(Valid()) ==> Valid() && ServerInvariants.Evolves(old(Snapshot()), Snapshot())
    {
      if Valid() {
        ServerInvariants.CreatePostPreservesValid(Snapshot(), uid, content, category, draw, now);
      }
      var v := ContentFilters.Validate(content);
      if v.Failure? {
        return Failure(Rejected(v.error));
      }
      result := SavePost(ServerRecords.NewPost(uid, NicknameGenerator.Generate(draw), content.value, category.GetOr(""), now));
    }

    /** The transaction of post creation: `Post.create!` (validations, then the insert under
      * the next id), then the 10 points. */
    method SavePost(post: Post) returns (result: Result<PostCreated, ServerServices.Failure>)
      modifies this
      ensures Snapshot() == ServerServices.SavePost(old(Snapshot()), post).db
      ensures result == ServerServices.SavePost(old(Snapshot()), post).result
    {
      var errs := PostErrors(Snapshot(), post);
      if errs != [] {
        return Failure(Invalid(errs));
      }
      ghost var db0 := Snapshot();
      var id := nextPostId;
      posts := posts[id := post];
      nextPostId := id + 1;
      assert ServerRecords.CreatePostRecord(db0, post).value == Snapshot();
      var l := Calculate(post.userId, Points.PostCreated, Some(10));
      result := Success(PostCreated(id, PointsAdded(l)));
    }

    /** `Replies::CreateService.call`: the resolved-post guard, the content filter, then the
      * transaction. */
    method CreateReply(pid: Id, uid: Id, content: Option<string>, now: int) returns (result: Result<ReplyCreated, ServerServices.Failure>)
      requires pid in posts
      modifies this
      ensures Snapshot() == ServerServices.CreateReply(old(Snapshot()), pid, uid, content, now).db
      ensures result == ServerServices.CreateReply(old(Snapshot()), pid, uid, content, now).result
      ensures old(Valid()) ==> Valid() && ServerInvariants.Evolves(old(Snapshot()), Snapshot())
    {
      if Valid() {
        ServerInvariants.CreateReplyPreservesValid(Snapshot(), pid, uid, content, now);
      }
      if posts[pid].status == Resolved {
        return Failure(PostAlreadyResolved);
      }
      var v := ContentFilters.Validate(content);
      if v.Failure? {
        return Failure(Rejected(v.error));
      }
      result := SaveReply(ServerRecords.NewReply(pid, uid, content.value, now));
    }

    /** The transaction of reply creation: `post.replies.create!`, then the reply_created
      * points for the replier. */
    method SaveReply(reply: Reply) returns (result: Result<ReplyCreated, ServerServices.Failure>)
      modifies this
      ensures Snapshot() == ServerServices.SaveReply(old(Snapshot()), reply).db
      ensures result == ServerServices.SaveReply(old(Snapshot()), reply).result
    {
      var errs := ReplyErrors(Snapshot(), reply);
      if errs != [] {
        return Failure(Invalid(errs));
      }
      ghost var db0 := Snapshot();
      var id := nextReplyId;
      replies := replies[id := reply];
      nextReplyId := id + 1;
      assert ServerRecords.CreateReplyRecord(db0, reply).value == Snapshot();
      var l := Calculate(reply.userId, Points.ReplyCreated, None);
      result := Success(ReplyCreated(id, PointsAdded(l)));
    }

    /** `Sympathies::CreateService.call`: the repeat guard, then the transaction. */
    method GiveSympathy(pid: Id, uid: Id, now: int) returns (result: Result<SympathyGiven, ServerServices.Failure>)
      requires pid in posts
      modifies this
      ensures Snapshot() == ServerServices.GiveSympathy(old(Snapshot()), pid, uid, now).db
      ensures result == ServerServices.GiveSympathy(old(Snapshot()), pid, uid, now).result
      ensures old(Valid()) ==> Valid() && ServerInvariants.Evolves(old(Snapshot()), Snapshot())
    {
      if Valid() {
        ServerInvariants.GiveSympathyPreservesValid(Snapshot(), pid, uid, now);
      }
      if HasSympathized(Snapshot(), pid, uid) {
        return Failure(AlreadySympathized);
      }
      result := SaveSympathy(Sympathy(pid, uid, now));
    }

    /** The transaction of a sympathy: `post.sympathies.create!`, whose `after_create` raises
      * the post's count, the owner's points, then the reloaded count and the fixed 1. */
    method SaveSympathy(row: Sympathy) returns (result: Result<SympathyGiven, ServerServices.Failure>)
      modifies this
      ensures Snapshot() == ServerServices.SaveSympathy(old(Snapshot()), row).db
      ensures result == ServerServices.SaveSympathy(old(Snapshot()), row).result
    {
      var errs := SympathyErrors(Snapshot(), row);
      if errs != [] {
        return Failure(Invalid(errs));
      }
      ghost var db0 := Snapshot();
      var id := nextSympathyId;
      sympathies := sympathies[id := row];
      nextSympathyId := id + 1;
      BumpSympathyCount(row.postId, 1);
      assert ServerRecords.CreateSympathyRecord(db0, row).value == Snapshot();
      var _ := Calculate(posts[row.postId].userId, Points.SympathyReceived, None);
      result := Success(SympathyGiven(posts[row.postId].sympathyCount, 1));
    }

    /** `SympathiesController#destroy`: find the user's row on the post and destroy it, or
      * answer "not found"; no points move. */
    method RemoveSympathy(pid: Id, uid: Id) returns (result: Result<SympathyRemoved, ServerServices.Failure>)
      requires pid in posts
      modifies this
      ensures Snapshot() == ServerServices.RemoveSympathy(old(Snapshot()), pid, uid).db
      ensures result == ServerServices.RemoveSympathy(old(Snapshot()), pid, uid).result
      ensures old(Valid()) ==> Valid() && ServerInvariants.Evolves(old(Snapshot()), Snapshot())
    {
      if Valid() {
        ServerInvariants.RemoveSympathyPreservesValid(Snapshot(), pid, uid);
      }
      var found := FindSympathy(pid, uid);
      if found.None? {
        return Failure(SympathyNotFound);
      }
      DestroySympathy(found.value);
      result := Success(SympathyRemoved(posts[pid].sympathyCount));
    }

    /** `Replies::SelectBestService.call`: the two guards in order, then the transaction. */
    method SelectBest(pid: Id, rid: Id) returns (result: Result<BestSelected, ServerServices.Failure>)
      requires pid in posts && rid in replies
      modifies this
      ensures Snapshot() == ServerServices.SelectBest(old(Snapshot()), pid, rid).db
      ensures result == ServerServices.SelectBest(old(Snapshot()), pid, rid).result
      ensures old(Valid()) ==> Valid() && ServerInvariants.Evolves(old(Snapshot()), Snapshot())
    {
      if Valid() {
        ServerInvariants.SelectBestPreservesValid(Snapshot(), pid, rid);
      }
      if posts[pid].status == Resolved {
        return Failure(AlreadyResolved);
      }
      if replies[rid].postId != pid {
        return Failure(ReplyOfOtherPost);
      }
      result := SaveBest(pid, rid);
    }

    /** The transaction of a selection: `resolve_with_best_reply!`, then the owner's and the
      * author's awards. */
    method SaveBest(pid: Id, rid: Id) returns (result: Result<BestSelected, ServerServices.Failure>)
      requires pid in posts && rid in replies
      modifies this
      ensures Snapshot() == ServerServices.SaveBest(old(Snapshot()), pid, rid).db
      ensures result == ServerServices.SaveBest(old(Snapshot()), pid, rid).result
    {
      var owner, author := posts[pid].userId, replies[rid].userId;
      var resolved := ResolveWithBestReply(pid, rid);
      if resolved.Failure? {
        return Failure(Invalid(resolved.error));
      }
      var l1 := Calculate(owner, Points.BestAnswerSelected, None);
      var l2 := Calculate(author, Points.BestAnswerReceived, None);
      result := Success(BestSelected(PointsAdded(l1), PointsAdded(l2)));
    }

    // -------------------------------------------------------------------------------------
    // Controller writes.

    /** `@post.update(post_params)`: content and category only, validated, no content filter. */
    method UpdatePost(pid: Id, content: Option<string>, category: Option<string>) returns (result: Result<Id, ServerServices.Failure>)
      requires pid in posts
      modifies this
      ensures Snapshot() == ServerServices.UpdatePost(old(Snapshot()), pid, content, category).db
      ensures result == ServerServices.UpdatePost(old(Snapshot()), pid, content, category).result
      ensures old(Valid()) ==> Valid() && ServerInvariants.Evolves(old(Snapshot()), Snapshot())
    {
      if Valid() {
        ServerInvariants.UpdatePostPreservesValid(Snapshot(), pid, content, category);
      }
      var before := posts[pid];
      var post := before.(content := content.GetOr(before.content), category := category.GetOr(before.category));
      var errs := PostErrors(Snapshot(), post);
      if errs != [] {
        return Failure(Invalid(errs));
      }
      posts := posts[pid := post];
      result := Success(pid);
    }

    /** `@post.destroy`, with its replies and sympathies. */
    method DestroyPost(pid: Id)
      modifies this
      ensures Snapshot() == ServerServices.DestroyPost(old(Snapshot()), pid).db
      ensures old(Valid()) ==> Valid() && ServerInvariants.Evolves(old(Snapshot()), Snapshot())
    {
      if Valid() {
        ServerInvariants.DestroyPostPreservesValid(Snapshot(), pid);
      }
      replies := map k | k in replies && replies[k].postId != pid :: replies[k];
      sympathies := map k | k in sympathies && sympathies[k].postId != pid :: sympathies[k];
      posts := posts - {pid};
    }

    /** `current_user.update(profile_params)`: email and nickname only, the email normalised,
      * validated, and refused by the database when it does not fit its column. */
    method UpdateProfile(uid: Id, email: Option<string>, nickname: Option<Option<string>>) returns (result: Result<Id, ServerServices.Failure>)
      requires uid in users
      modifies this
      ensures Snapshot() == ServerServices.UpdateProfile(old(Snapshot()), uid, email, nickname).db
      ensures result == ServerServices.UpdateProfile(old(Snapshot()), uid, email, nickname).result
      ensures old(Valid()) ==> Valid() && ServerInvariants.Evolves(old(Snapshot()), Snapshot())
    {
      if Valid() {
        ServerInvariants.UpdateProfilePreservesValid(Snapshot(), uid, email, nickname);
      }
      var user := ServerServices.ProfileChange(users[uid], email, nickname);
      var errs := UserErrors(Snapshot(), uid, user);
      if errs != [] {
        return Failure(Invalid(errs));
      }
      if !FitsColumns(user) {
        return Failure(ValueTooLong);
      }
      users := users[uid := user];
      result := Success(uid);
    }

    /** `user.destroy`: the user's posts with everything on them, then the user's other replies
      * and sympathies, each sympathy lowering the count of the post it was on. */
    method DestroyUser(uid: Id)
      modifies this
      ensures Snapshot() == ServerServices.DestroyUser(old(Snapshot()), uid).db
      ensures Consistent(old(Snapshot())) ==> Consistent(Snapshot())
    {
      ghost var db0 := Snapshot();
      var kept := map k | k in posts && posts[k].userId != uid ::
        posts[k].(sympathyCount := posts[k].sympathyCount - |ServerRecords.SympathiesBy(sympathies, k, uid)|);
      replies := map k | k in replies && replies[k].userId != uid && replies[k].postId in kept :: replies[k];
      sympathies := map k | k in sympathies && sympathies[k].userId != uid && sympathies[k].postId in kept :: sympathies[k];
      posts := kept;
      users := users - {uid};
      assert Snapshot() == ServerServices.DestroyUser(db0, uid).db;
      if Consistent(db0) {
        ServerInvariants.DestroyUserPreservesConsistent(db0, uid);
      }
    }
  }
}
