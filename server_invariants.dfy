/**
 * What the server's workflows preserve: every workflow keeps a valid store valid (counts in
 * sync with the rows, one sympathy per user and post, a resolved post with exactly one best
 * reply, an active post with none), never lowers a balance and never reopens a resolved post.
 * Destroying a user keeps the store consistent but can leave a resolved post without a best
 * reply.
 *
 * Each record-level step is proved one conjunct of the invariant at a time, each part from
 * only the conjuncts it needs.
 */
module ServerInvariants {
  import opened Wrappers
  import opened Text
  import opened ServerModels
  import opened ServerRecords
  import opened ServerServices
  import Points
  import NicknameGenerator
  import ContentFilters
  import Ordering

  /** How stores may evolve: balances never fall and a resolved post stays resolved. */
  predicate Evolves(db: Db, db': Db) {
    (forall u | u in db.users && u in db'.users :: db'.users[u].totalPoints >= db.users[u].totalPoints)
    && (forall p | p in db.posts && p in db'.posts && db.posts[p].status == Resolved ::
          db'.posts[p].status == Resolved)
  }

  /** The conjuncts of `Valid`, one at a time. */
  lemma Assemble(r: Db)
    requires IdsBelowCounters(r) && ReferencesIntact(r) && UsersValid(r) && PostsValid(r) && RepliesValid(r)
    requires SympathiesUnique(r) && CountsInSync(r) && BestRepliesSound(r) && ResolvedHaveBest(r)
    ensures Valid(r)
  {
  }

  /** Of a valid post, a new count that is not negative and a new status keep it valid. */
  lemma RecountKeepsFields(p: Post, c: int)
    requires PostFieldErrors(p) == [] && c >= 0
    ensures PostFieldErrors(p.(sympathyCount := c)) == []
  {
  }

  lemma RestatusKeepsFields(p: Post, st: Status)
    requires PostFieldErrors(p) == []
    ensures PostFieldErrors(p.(status := st)) == []
  {
  }

  /** Replacing one valid post by another valid one keeps all posts valid. */
  lemma OnePostChanged(before: map<Id, Post>, after: map<Id, Post>, pid: Id)
    requires forall q | q in before :: PostFieldErrors(before[q]) == []
    requires after.Keys == before.Keys && pid in after && PostFieldErrors(after[pid]) == []
    requires forall q | q in before && q != pid :: after[q] == before[q]
    ensures forall q | q in after :: PostFieldErrors(after[q]) == []
  {
  }

  /** The best-reply invariants depend only on the replies and on each post's status. */
  lemma StatusFrame(db: Db, r: Db)
    requires BestRepliesSound(db) && ResolvedHaveBest(db)
    requires r.replies == db.replies && r.posts.Keys == db.posts.Keys
    requires forall k | k in db.posts :: r.posts[k].status == db.posts[k].status
    ensures BestRepliesSound(r) && ResolvedHaveBest(r)
  {
  }

  // ---------------------------------------------------------------------------------------
  // `User#add_points`.

  lemma AddPointsKeepsUsers(db: Db, uid: Id, amount: int)
    requires UsersValid(db) && uid in db.users && amount >= 0
    ensures UsersValid(AddPoints(db, uid, amount)) && Evolves(db, AddPoints(db, uid, amount))
  {
  }

  lemma AddPointsKeepsRows(db: Db, uid: Id, amount: int)
    requires Consistent(db) && ResolvedHaveBest(db) && uid in db.users
    ensures var r := AddPoints(db, uid, amount);
      IdsBelowCounters(r) && ReferencesIntact(r) && PostsValid(r) && RepliesValid(r)
      && SympathiesUnique(r) && CountsInSync(r) && BestRepliesSound(r) && ResolvedHaveBest(r)
  {
    var r := AddPoints(db, uid, amount);
    assert r.posts == db.posts && r.replies == db.replies && r.sympathies == db.sympathies;
  }

  lemma {:induction false} AddPointsPreservesValid(db: Db, uid: Id, amount: int)
    requires Valid(db) && uid in db.users && amount >= 0
    ensures Valid(AddPoints(db, uid, amount)) && Evolves(db, AddPoints(db, uid, amount))
  {
    AddPointsKeepsUsers(db, uid, amount);
    AddPointsKeepsRows(db, uid, amount);
    Assemble(AddPoints(db, uid, amount));
  }

  lemma {:induction false} AwardPreservesValid(db: Db, uid: Id, action: Points.Action, amount: Option<int>)
    requires Valid(db)
    ensures Valid(Award(db, uid, action, amount).0) && Evolves(db, Award(db, uid, action, amount).0)
    ensures Award(db, uid, action, amount).0.users.Keys == db.users.Keys
    ensures Award(db, uid, action, amount).0.posts == db.posts
  {
    var l := Award(db, uid, action, amount).1;
    if l.Awarded? {
      AddPointsPreservesValid(db, uid, l.pointsAdded);
    }
  }

  // ---------------------------------------------------------------------------------------
  // `Post.create!`.

  function InsertPost(db: Db, p: Post): Db {
    db.(posts := db.posts[db.nextPostId := p], nextPostId := db.nextPostId + 1)
  }

  lemma InsertPostKeepsRefs(db: Db, p: Post)
    requires IdsBelowCounters(db) && ReferencesIntact(db) && p.userId in db.users
    ensures IdsBelowCounters(InsertPost(db, p)) && ReferencesIntact(InsertPost(db, p))
  {
  }

  lemma InsertPostKeepsPosts(db: Db, p: Post)
    requires PostsValid(db) && PostFieldErrors(p) == []
    ensures PostsValid(InsertPost(db, p))
  {
  }

  lemma InsertPostKeepsCounts(db: Db, p: Post)
    requires IdsBelowCounters(db) && ReferencesIntact(db) && CountsInSync(db) && p.sympathyCount == 0
    ensures CountsInSync(InsertPost(db, p))
  {
    assert SympathyIds(db.sympathies, db.nextPostId) == {};
  }

  lemma InsertPostKeepsBest(db: Db, p: Post)
    requires IdsBelowCounters(db) && ReferencesIntact(db) && BestRepliesSound(db) && ResolvedHaveBest(db)
    requires p.status == Active
    ensures BestRepliesSound(InsertPost(db, p)) && ResolvedHaveBest(InsertPost(db, p))
    ensures Evolves(db, InsertPost(db, p))
  {
    var r := InsertPost(db, p);
    var k := db.nextPostId;
    assert BestReplyIds(db.replies, k) == {};
    forall q | q in r.posts
      ensures r.posts[q].status == Active ==> BestReplyIds(r.replies, q) == {}
      ensures |BestReplyIds(r.replies, q)| <= 1
      ensures r.posts[q].status == Resolved ==> BestReplyIds(r.replies, q) != {}
    {
      if q != k {
        assert r.posts[q] == db.posts[q];
      }
    }
  }

  lemma {:induction false} CreatePostRecordPreservesValid(db: Db, p: Post)
    requires Valid(db) && PostErrors(db, p) == [] && p.status == Active && p.sympathyCount == 0
    ensures Valid(CreatePostRecord(db, p).value) && Evolves(db, CreatePostRecord(db, p).value)
  {
    InsertPostKeepsRefs(db, p);
    InsertPostKeepsPosts(db, p);
    InsertPostKeepsCounts(db, p);
    InsertPostKeepsBest(db, p);
    Assemble(InsertPost(db, p));
    assert CreatePostRecord(db, p).value == InsertPost(db, p);
  }

  // ---------------------------------------------------------------------------------------
  // `post.replies.create!`.

  function InsertReply(db: Db, reply: Reply): Db {
    db.(replies := db.replies[db.nextReplyId := reply], nextReplyId := db.nextReplyId + 1)
  }

  lemma InsertReplyKeepsRefs(db: Db, reply: Reply)
    requires IdsBelowCounters(db) && ReferencesIntact(db)
    requires reply.postId in db.posts && reply.userId in db.users
    ensures IdsBelowCounters(InsertReply(db, reply)) && ReferencesIntact(InsertReply(db, reply))
  {
  }

  lemma InsertReplyKeepsReplies(db: Db, reply: Reply)
    requires RepliesValid(db) && ReplyFieldErrors(reply) == []
    ensures RepliesValid(InsertReply(db, reply))
  {
  }

  lemma InsertReplyKeepsBest(db: Db, reply: Reply)
    requires IdsBelowCounters(db) && BestRepliesSound(db) && ResolvedHaveBest(db) && !reply.isBest
    ensures BestRepliesSound(InsertReply(db, reply)) && ResolvedHaveBest(InsertReply(db, reply))
    ensures Evolves(db, InsertReply(db, reply))
  {
    var r := InsertReply(db, reply);
    forall q ensures BestReplyIds(r.replies, q) == BestReplyIds(db.replies, q) {
      BestReplyIdsInsert(db.replies, db.nextReplyId, reply, q);
    }
  }

  lemma {:induction false} CreateReplyRecordPreservesValid(db: Db, reply: Reply)
    requires Valid(db) && ReplyErrors(db, reply) == [] && !reply.isBest
    ensures Valid(CreateReplyRecord(db, reply).value) && Evolves(db, CreateReplyRecord(db, reply).value)
  {
    InsertReplyKeepsRefs(db, reply);
    InsertReplyKeepsReplies(db, reply);
    InsertReplyKeepsBest(db, reply);
    Assemble(InsertReply(db, reply));
    assert CreateReplyRecord(db, reply).value == InsertReply(db, reply);
  }

  // ---------------------------------------------------------------------------------------
  // `post.sympathies.create!` and `sympathy.destroy`.

  function InsertSympathy(db: Db, s: Sympathy): Db
    requires s.postId in db.posts
  {
    BumpSympathyCount(db.(sympathies := db.sympathies[db.nextSympathyId := s],
                          nextSympathyId := db.nextSympathyId + 1), s.postId, 1)
  }

  lemma InsertSympathyKeepsRefs(db: Db, s: Sympathy)
    requires IdsBelowCounters(db) && ReferencesIntact(db) && s.postId in db.posts && s.userId in db.users
    ensures IdsBelowCounters(InsertSympathy(db, s)) && ReferencesIntact(InsertSympathy(db, s))
  {
  }

  lemma InsertSympathyKeepsPosts(db: Db, s: Sympathy)
    requires PostsValid(db) && s.postId in db.posts
    ensures PostsValid(InsertSympathy(db, s))
  {
    assert PostFieldErrors(db.posts[s.postId]) == [];
  }

  lemma InsertSympathyKeepsUnique(db: Db, s: Sympathy)
    requires IdsBelowCounters(db) && SympathiesUnique(db) && s.postId in db.posts
    requires !HasSympathized(db, s.postId, s.userId)
    ensures SympathiesUnique(InsertSympathy(db, s))
  {
  }

  lemma InsertSympathyKeepsCounts(db: Db, s: Sympathy)
    requires IdsBelowCounters(db) && CountsInSync(db) && s.postId in db.posts
    ensures CountsInSync(InsertSympathy(db, s))
  {
    var r := InsertSympathy(db, s);
    forall q | q in r.posts ensures r.posts[q].sympathyCount == |SympathyIds(r.sympathies, q)| {
      SympathyIdsInsert(db.sympathies, db.nextSympathyId, s, q);
    }
  }

  lemma InsertSympathyKeepsBest(db: Db, s: Sympathy)
    requires BestRepliesSound(db) && ResolvedHaveBest(db) && s.postId in db.posts
    ensures BestRepliesSound(InsertSympathy(db, s)) && ResolvedHaveBest(InsertSympathy(db, s))
    ensures Evolves(db, InsertSympathy(db, s))
  {
    StatusFrame(db, InsertSympathy(db, s));
  }

  lemma {:induction false} CreateSympathyRecordPreservesValid(db: Db, s: Sympathy)
    requires Valid(db) && SympathyErrors(db, s) == []
    ensures Valid(CreateSympathyRecord(db, s).value) && Evolves(db, CreateSympathyRecord(db, s).value)
  {
    var r := InsertSympathy(db, s);
    InsertSympathyKeepsRefs(db, s);
    InsertSympathyKeepsPosts(db, s);
    InsertSympathyKeepsUnique(db, s);
    InsertSympathyKeepsCounts(db, s);
    InsertSympathyKeepsBest(db, s);
    Assemble(r);
    assert CreateSympathyRecord(db, s).value == r;
  }

  lemma DestroySympathyKeepsRefs(db: Db, k: Id)
    requires IdsBelowCounters(db) && ReferencesIntact(db) && SympathiesUnique(db) && k in db.sympathies
    ensures var r := DestroySympathyRecord(db, k);
      IdsBelowCounters(r) && ReferencesIntact(r) && SympathiesUnique(r)
  {
  }

  lemma DestroySympathyKeepsCounts(db: Db, k: Id)
    requires ReferencesIntact(db) && CountsInSync(db) && k in db.sympathies
    ensures CountsInSync(DestroySympathyRecord(db, k))
  {
    var r := DestroySympathyRecord(db, k);
    forall q | q in r.posts ensures r.posts[q].sympathyCount == |SympathyIds(r.sympathies, q)| {
      SympathyIdsRemove(db.sympathies, k, q);
    }
  }

  /** The decrement cannot take a count below zero while the counts are in sync: the row being
    * destroyed is one of those counted. */
  lemma DestroySympathyKeepsPosts(db: Db, k: Id)
    requires ReferencesIntact(db) && PostsValid(db) && CountsInSync(db) && k in db.sympathies
    ensures PostsValid(DestroySympathyRecord(db, k))
  {
    var pid := db.sympathies[k].postId;
    assert k in SympathyIds(db.sympathies, pid);
    RecountKeepsFields(db.posts[pid], db.posts[pid].sympathyCount - 1);
    OnePostChanged(db.posts, DestroySympathyRecord(db, k).posts, pid);
  }

  lemma DestroySympathyKeepsBest(db: Db, k: Id)
    requires BestRepliesSound(db) && ResolvedHaveBest(db) && ReferencesIntact(db) && k in db.sympathies
    ensures BestRepliesSound(DestroySympathyRecord(db, k)) && ResolvedHaveBest(DestroySympathyRecord(db, k))
    ensures Evolves(db, DestroySympathyRecord(db, k))
  {
    StatusFrame(db, DestroySympathyRecord(db, k));
  }

  lemma {:induction false} DestroySympathyRecordPreservesValid(db: Db, k: Id)
    requires Valid(db) && k in db.sympathies
    ensures db.sympathies[k].postId in db.posts
    ensures Valid(DestroySympathyRecord(db, k)) && Evolves(db, DestroySympathyRecord(db, k))
  {
    var r := DestroySympathyRecord(db, k);
    DestroySympathyKeepsRefs(db, k);
    DestroySympathyKeepsCounts(db, k);
    DestroySympathyKeepsPosts(db, k);
    DestroySympathyKeepsBest(db, k);
    Assemble(r);
  }

  // ---------------------------------------------------------------------------------------
  // `Post#resolve_with_best_reply!`.

  function MarkResolved(db: Db, pid: Id, rid: Id): Db
    requires pid in db.posts && rid in db.replies
  {
    db.(posts := db.posts[pid := db.posts[pid].(status := Resolved)],
        replies := db.replies[rid := db.replies[rid].(isBest := true)])
  }

  lemma MarkResolvedKeepsRefs(db: Db, pid: Id, rid: Id)
    requires IdsBelowCounters(db) && ReferencesIntact(db) && SympathiesUnique(db) && CountsInSync(db)
    requires pid in db.posts && rid in db.replies
    ensures var r := MarkResolved(db, pid, rid);
      IdsBelowCounters(r) && ReferencesIntact(r) && SympathiesUnique(r) && CountsInSync(r)
  {
  }

  lemma MarkResolvedKeepsFields(db: Db, pid: Id, rid: Id)
    requires PostsValid(db) && RepliesValid(db) && pid in db.posts && rid in db.replies
    ensures PostsValid(MarkResolved(db, pid, rid)) && RepliesValid(MarkResolved(db, pid, rid))
  {
    assert PostFieldErrors(db.posts[pid]) == [];
    assert ReplyFieldErrors(db.replies[rid]) == [];
  }

  lemma MarkResolvedBestIds(db: Db, pid: Id, rid: Id)
    requires pid in db.posts && rid in db.replies && db.replies[rid].postId == pid
    requires BestReplyIds(db.replies, pid) == {}
    ensures var r := MarkResolved(db, pid, rid);
      forall q :: BestReplyIds(r.replies, q) == if q == pid then {rid} else BestReplyIds(db.replies, q)
  {
    var r := MarkResolved(db, pid, rid);
    forall q ensures BestReplyIds(r.replies, q) == if q == pid then {rid} else BestReplyIds(db.replies, q) {
      BestReplyIdsFlag(db.replies, rid, q);
    }
  }

  lemma MarkResolvedKeepsBest(db: Db, pid: Id, rid: Id)
    requires BestRepliesSound(db) && ResolvedHaveBest(db) && pid in db.posts && rid in db.replies
    requires db.posts[pid].status == Active && db.replies[rid].postId == pid
    ensures var r := MarkResolved(db, pid, rid);
      BestRepliesSound(r) && ResolvedHaveBest(r) && BestReplyIds(r.replies, pid) == {rid}
  {
    MarkResolvedBestIds(db, pid, rid);
  }

  lemma MarkResolvedEvolves(db: Db, pid: Id, rid: Id)
    requires pid in db.posts && rid in db.replies
    ensures Evolves(db, MarkResolved(db, pid, rid))
  {
  }

  lemma {:induction false} ResolvePreservesValid(db: Db, pid: Id, rid: Id)
    requires Valid(db) && pid in db.posts && rid in db.replies
    requires db.posts[pid].status == Active && db.replies[rid].postId == pid
    ensures ResolveWithBestReply(db, pid, rid).Success?
    ensures var r := ResolveWithBestReply(db, pid, rid).value;
      Valid(r) && Evolves(db, r) && BestReplyIds(r.replies, pid) == {rid}
  {
    var r := MarkResolved(db, pid, rid);
    MarkResolvedKeepsRefs(db, pid, rid);
    MarkResolvedKeepsFields(db, pid, rid);
    MarkResolvedKeepsBest(db, pid, rid);
    MarkResolvedEvolves(db, pid, rid);
    Assemble(r);
    ResolveSucceedsWhenConsistent(db, pid, rid);
    assert ResolveWithBestReply(db, pid, rid).value == r;
  }

  // ---------------------------------------------------------------------------------------
  // `post.destroy`.

  lemma DestroyPostKeepsRefs(db: Db, pid: Id)
    requires IdsBelowCounters(db) && ReferencesIntact(db)
    ensures IdsBelowCounters(DestroyPostRecord(db, pid)) && ReferencesIntact(DestroyPostRecord(db, pid))
  {
  }

  lemma DestroyPostKeepsFields(db: Db, pid: Id)
    requires UsersValid(db) && PostsValid(db) && RepliesValid(db) && SympathiesUnique(db)
    ensures var r := DestroyPostRecord(db, pid);
      UsersValid(r) && PostsValid(r) && RepliesValid(r) && SympathiesUnique(r)
  {
  }

  lemma DestroyPostKeepsCounts(db: Db, pid: Id)
    requires CountsInSync(db)
    ensures CountsInSync(DestroyPostRecord(db, pid))
  {
    var r := DestroyPostRecord(db, pid);
    forall q | q in r.posts ensures SympathyIds(r.sympathies, q) == SympathyIds(db.sympathies, q) {
    }
  }

  lemma DestroyPostKeepsBest(db: Db, pid: Id)
    requires BestRepliesSound(db) && ResolvedHaveBest(db)
    ensures var r := DestroyPostRecord(db, pid);
      BestRepliesSound(r) && ResolvedHaveBest(r) && Evolves(db, r)
  {
    var r := DestroyPostRecord(db, pid);
    forall q | q in r.posts ensures BestReplyIds(r.replies, q) == BestReplyIds(db.replies, q) {
    }
  }

  lemma {:induction false} DestroyPostRecordPreservesValid(db: Db, pid: Id)
    requires Valid(db)
    ensures Valid(DestroyPostRecord(db, pid)) && Evolves(db, DestroyPostRecord(db, pid))
  {
    DestroyPostKeepsRefs(db, pid);
    DestroyPostKeepsFields(db, pid);
    DestroyPostKeepsCounts(db, pid);
    DestroyPostKeepsBest(db, pid);
    Assemble(DestroyPostRecord(db, pid));
  }

  // ---------------------------------------------------------------------------------------
  // `@post.update` and `current_user.update`.

  function ReplacePost(db: Db, pid: Id, post: Post): Db {
    db.(posts := db.posts[pid := post])
  }

  lemma ReplacePostKeepsRows(db: Db, pid: Id, post: Post)
    requires IdsBelowCounters(db) && ReferencesIntact(db) && CountsInSync(db) && pid in db.posts
    requires post.userId == db.posts[pid].userId && post.sympathyCount == db.posts[pid].sympathyCount
    ensures var r := ReplacePost(db, pid, post);
      IdsBelowCounters(r) && ReferencesIntact(r) && CountsInSync(r)
  {
  }

  lemma ReplacePostKeepsPosts(db: Db, pid: Id, post: Post)
    requires PostsValid(db) && pid in db.posts && PostFieldErrors(post) == []
    ensures PostsValid(ReplacePost(db, pid, post))
  {
    OnePostChanged(db.posts, ReplacePost(db, pid, post).posts, pid);
  }

  lemma ReplacePostKeepsBest(db: Db, pid: Id, post: Post)
    requires BestRepliesSound(db) && ResolvedHaveBest(db) && pid in db.posts
    requires post.status == db.posts[pid].status
    ensures var r := ReplacePost(db, pid, post);
      BestRepliesSound(r) && ResolvedHaveBest(r) && Evolves(db, r)
  {
    StatusFrame(db, ReplacePost(db, pid, post));
  }

  lemma {:induction false} UpdatePostPreservesValid(db: Db, pid: Id, content: Option<string>, category: Option<string>)
    requires Valid(db) && pid in db.posts
    ensures Valid(UpdatePost(db, pid, content, category).db) && Evolves(db, UpdatePost(db, pid, content, category).db)
  {
    var before := db.posts[pid];
    var post := before.(content := content.GetOr(before.content), category := category.GetOr(before.category));
    if PostErrors(db, post) == [] {
      var r := ReplacePost(db, pid, post);
      ReplacePostKeepsRows(db, pid, post);
      ReplacePostKeepsBest(db, pid, post);
      ReplacePostKeepsPosts(db, pid, post);
      Assemble(r);
      assert UpdatePost(db, pid, content, category).db == r;
    }
  }

  function ReplaceUser(db: Db, uid: Id, u: User): Db {
    db.(users := db.users[uid := u])
  }

  lemma ReplaceUserKeepsUsers(db: Db, uid: Id, u: User)
    requires UsersValid(db) && uid in db.users && UserErrors(db, uid, u) == [] && FitsColumns(u)
    requires u.totalPoints >= db.users[uid].totalPoints
    ensures UsersValid(ReplaceUser(db, uid, u)) && Evolves(db, ReplaceUser(db, uid, u))
  {
    assert !EmailTakenIgnoringCase(db, uid, u.email);
  }

  lemma ReplaceUserKeepsRows(db: Db, uid: Id, u: User)
    requires Consistent(db) && ResolvedHaveBest(db) && uid in db.users
    ensures var r := ReplaceUser(db, uid, u);
      IdsBelowCounters(r) && ReferencesIntact(r) && PostsValid(r) && RepliesValid(r)
      && SympathiesUnique(r) && CountsInSync(r) && BestRepliesSound(r) && ResolvedHaveBest(r)
  {
    var r := ReplaceUser(db, uid, u);
    assert r.posts == db.posts && r.replies == db.replies && r.sympathies == db.sympathies;
  }

  lemma {:induction false} UpdateProfilePreservesValid(db: Db, uid: Id, email: Option<string>, nickname: Option<Option<string>>)
    requires Valid(db) && uid in db.users
    ensures Valid(UpdateProfile(db, uid, email, nickname).db) && Evolves(db, UpdateProfile(db, uid, email, nickname).db)
  {
    var s := UpdateProfile(db, uid, email, nickname);
    if s.result.Success? {
      var u := s.db.users[uid];
      assert s.db == ReplaceUser(db, uid, u);
      ReplaceUserKeepsUsers(db, uid, u);
      ReplaceUserKeepsRows(db, uid, u);
      Assemble(s.db);
    }
  }

  // ---------------------------------------------------------------------------------------
  // The workflows.

  lemma EvolvesTrans(a: Db, b: Db, c: Db)
    requires Evolves(a, b) && Evolves(b, c) && a.users.Keys <= b.users.Keys && a.posts.Keys <= b.posts.Keys
    ensures Evolves(a, c)
  {
  }

  /** The transaction of post creation keeps the invariant. */
  lemma {:induction false} SavePostPreservesValid(db: Db, post: Post)
    requires Valid(db) && post.status == Active && post.sympathyCount == 0
    ensures var s := SavePost(db, post); Valid(s.db) && Evolves(db, s.db)
  {
    var s := SavePost(db, post);
    if s.result.Success? {
      var db1 := CreatePostRecord(db, post).value;
      CreatePostRecordPreservesValid(db, post);
      AwardPreservesValid(db1, post.userId, Points.PostCreated, Some(10));
      EvolvesTrans(db, db1, s.db);
    }
  }

  lemma {:induction false} CreatePostPreservesValid(db: Db, uid: Id, content: Option<string>,
                                                    category: Option<string>, draw: NicknameGenerator.Draw, now: int)
    requires Valid(db) && NicknameGenerator.ValidDraw(draw)
    ensures var s := CreatePost(db, uid, content, category, draw, now); Valid(s.db) && Evolves(db, s.db)
  {
    if ContentFilters.Validate(content).Success? {
      SavePostPreservesValid(db, NewPost(uid, NicknameGenerator.Generate(draw), content.value, category.GetOr(""), now));
    }
  }

  /** The transaction of reply creation keeps the invariant. */
  lemma {:induction false} SaveReplyPreservesValid(db: Db, reply: Reply)
    requires Valid(db) && !reply.isBest
    ensures var s := SaveReply(db, reply); Valid(s.db) && Evolves(db, s.db)
  {
    var s := SaveReply(db, reply);
    if s.result.Success? {
      var db1 := CreateReplyRecord(db, reply).value;
      CreateReplyRecordPreservesValid(db, reply);
      AwardPreservesValid(db1, reply.userId, Points.ReplyCreated, None);
      EvolvesTrans(db, db1, s.db);
    }
  }

  lemma {:induction false} CreateReplyPreservesValid(db: Db, pid: Id, uid: Id, content: Option<string>, now: int)
    requires Valid(db) && pid in db.posts
    ensures var s := CreateReply(db, pid, uid, content, now); Valid(s.db) && Evolves(db, s.db)
  {
    var s := CreateReply(db, pid, uid, content, now);
    if s.result.Success? {
      SaveReplyPreservesValid(db, NewReply(pid, uid, content.value, now));
    }
  }

  /** The transaction of a sympathy keeps the invariant. */
  lemma {:induction false} SaveSympathyPreservesValid(db: Db, row: Sympathy)
    requires Valid(db)
    ensures var s := SaveSympathy(db, row); Valid(s.db) && Evolves(db, s.db)
  {
    var s := SaveSympathy(db, row);
    if s.result.Success? {
      var db1 := CreateSympathyRecord(db, row).value;
      CreateSympathyRecordPreservesValid(db, row);
      AwardPreservesValid(db1, db1.posts[row.postId].userId, Points.SympathyReceived, None);
      EvolvesTrans(db, db1, s.db);
    }
  }

  lemma {:induction false} GiveSympathyPreservesValid(db: Db, pid: Id, uid: Id, now: int)
    requires Valid(db) && pid in db.posts
    ensures var s := GiveSympathy(db, pid, uid, now); Valid(s.db) && Evolves(db, s.db)
  {
    if !HasSympathized(db, pid, uid) {
      SaveSympathyPreservesValid(db, Sympathy(pid, uid, now));
    }
  }

  lemma {:induction false} RemoveSympathyPreservesValid(db: Db, pid: Id, uid: Id)
    requires Valid(db) && pid in db.posts
    ensures var s := RemoveSympathy(db, pid, uid); Valid(s.db) && Evolves(db, s.db)
  {
    match FindSympathy(db, pid, uid)
    case None =>
    case Some(k) => DestroySympathyRecordPreservesValid(db, k);
  }

  /** The two awards that close a selection. */
  lemma {:induction false} AwardBothPreservesValid(db: Db, owner: Id, author: Id)
    requires Valid(db)
    ensures var db2 := Award(db, owner, Points.BestAnswerSelected, None).0;
      var db3 := Award(db2, author, Points.BestAnswerReceived, None).0;
      Valid(db3) && Evolves(db, db3)
  {
    AwardPreservesValid(db, owner, Points.BestAnswerSelected, None);
    var db2 := Award(db, owner, Points.BestAnswerSelected, None).0;
    AwardPreservesValid(db2, author, Points.BestAnswerReceived, None);
    EvolvesTrans(db, db2, Award(db2, author, Points.BestAnswerReceived, None).0);
  }

  lemma {:induction false} SelectBestPreservesValid(db: Db, pid: Id, rid: Id)
    requires Valid(db) && pid in db.posts && rid in db.replies
    ensures var s := SelectBest(db, pid, rid); Valid(s.db) && Evolves(db, s.db)
  {
    var s := SelectBest(db, pid, rid);
    if s.result.Success? {
      ResolvePreservesValid(db, pid, rid);
      var db1 := ResolveWithBestReply(db, pid, rid).value;
      var owner := db.posts[pid].userId;
      var author := db.replies[rid].userId;
      AwardBothPreservesValid(db1, owner, author);
      var db3 := Award(Award(db1, owner, Points.BestAnswerSelected, None).0, author, Points.BestAnswerReceived, None).0;
      assert s.db == db3;
      EvolvesTrans(db, db1, db3);
    }
  }

  lemma {:induction false} DestroyPostPreservesValid(db: Db, pid: Id)
    requires Valid(db)
    ensures Valid(DestroyPost(db, pid).db) && Evolves(db, DestroyPost(db, pid).db)
  {
    DestroyPostRecordPreservesValid(db, pid);
  }

  // ---------------------------------------------------------------------------------------
  // `user.destroy`.

  lemma DestroyUserKeepsIds(db: Db, uid: Id)
    requires IdsBelowCounters(db)
    ensures IdsBelowCounters(DestroyUserRecord(db, uid))
  {
  }

  lemma DestroyUserKeepsRefs(db: Db, uid: Id)
    requires ReferencesIntact(db)
    ensures ReferencesIntact(DestroyUserRecord(db, uid))
  {
  }

  lemma DestroyUserKeepsFields(db: Db, uid: Id)
    requires UsersValid(db) && RepliesValid(db) && SympathiesUnique(db)
    ensures var r := DestroyUserRecord(db, uid);
      UsersValid(r) && RepliesValid(r) && SympathiesUnique(r)
  {
  }

  /** Each remaining post loses exactly the sympathy rows of the destroyed user, and the
    * cascade lowers its count by exactly that many. */
  lemma DestroyUserKeepsCounts(db: Db, uid: Id)
    requires CountsInSync(db)
    ensures CountsInSync(DestroyUserRecord(db, uid))
  {
    var r := DestroyUserRecord(db, uid);
    forall q | q in r.posts ensures r.posts[q].sympathyCount == |SympathyIds(r.sympathies, q)| {
      CountAfterCascade(db.sympathies, r.sympathies, q, uid);
    }
  }

  /** Keeping exactly the rows on `q` not made by `uid` leaves `q` with its rows less those of
    * `uid`. */
  lemma CountAfterCascade(before: map<Id, Sympathy>, after: map<Id, Sympathy>, q: Id, uid: Id)
    requires forall k | k in before && before[k].postId == q :: k in after <==> before[k].userId != uid
    requires forall k | k in after :: k in before && after[k] == before[k]
    ensures |SympathyIds(after, q)| == |SympathyIds(before, q)| - |SympathiesBy(before, q, uid)|
  {
    var a := SympathyIds(before, q);
    var b := SympathiesBy(before, q, uid);
    assert SympathyIds(after, q) == a - b;
    assert a == (a - b) + b;
  }

  lemma DestroyUserKeepsPosts(db: Db, uid: Id)
    requires PostsValid(db) && CountsInSync(DestroyUserRecord(db, uid))
    ensures PostsValid(DestroyUserRecord(db, uid))
  {
    var r := DestroyUserRecord(db, uid);
    forall q | q in r.posts ensures PostFieldErrors(r.posts[q]) == [] {
      RecountKeepsFields(db.posts[q], r.posts[q].sympathyCount);
    }
  }

  lemma DestroyUserKeepsBest(db: Db, uid: Id)
    requires BestRepliesSound(db)
    ensures BestRepliesSound(DestroyUserRecord(db, uid))
  {
    var r := DestroyUserRecord(db, uid);
    forall q | q in r.posts
      ensures (r.posts[q].status == Active ==> BestReplyIds(r.replies, q) == {})
      ensures |BestReplyIds(r.replies, q)| <= 1
    {
      Ordering.SubsetCardinality(BestReplyIds(r.replies, q), BestReplyIds(db.replies, q));
    }
  }

  /** After the cascade no row refers to the user, every count is still in sync with the rows
    * and every invariant of a consistent store holds. */
  lemma {:induction false} DestroyUserPreservesConsistent(db: Db, uid: Id)
    requires Consistent(db)
    ensures Consistent(DestroyUser(db, uid).db)
  {
    DestroyUserKeepsIds(db, uid);
    DestroyUserKeepsRefs(db, uid);
    DestroyUserKeepsFields(db, uid);
    DestroyUserKeepsCounts(db, uid);
    DestroyUserKeepsPosts(db, uid);
    DestroyUserKeepsBest(db, uid);
  }

  /** A store where user 1's reply is the best reply of user 0's resolved post. */
  const OrphanExample: Db := Db(
    map[0 := User("a@example.com", None, 50), 1 := User("b@example.com", None, 30)],
    map[0 := Post(0, "迷える子羊#0001", "past", "love", Resolved, 0, 0)],
    map[0 := Reply(0, 1, "rewrite", true, 1)],
    map[],
    2, 1, 1, 0)

  lemma OrphanExampleRows()
    ensures PostsValid(OrphanExample) && RepliesValid(OrphanExample)
  {
    var p := OrphanExample.posts[0];
    var r := OrphanExample.replies[0];
    assert !IsBlank(p.nickname) by { assert !IsWhitespace(p.nickname[0]); }
    assert !IsBlank(p.content) by { assert !IsWhitespace(p.content[0]); }
    assert !IsBlank(r.content) by { assert !IsWhitespace(r.content[0]); }
  }

  lemma OrphanExampleUsers()
    ensures UsersValid(OrphanExample)
  {
    var us := OrphanExample.users;
    assert us.Keys == {0, 1};
    var a := us[0].email;
    var b := us[1].email;
    assert !IsBlank(a) by { assert !IsWhitespace(a[0]); }
    assert !IsBlank(b) by { assert !IsWhitespace(b[0]); }
    assert Lower(a)[0] == 'a' && Lower(b)[0] == 'b';
    forall k, j | k in us && j in us && k != j
      ensures Lower(us[k].email) != Lower(us[j].email)
    {
      assert Lower(us[k].email)[0] != Lower(us[j].email)[0];
    }
  }

  lemma OrphanExampleLinks()
    ensures IdsBelowCounters(OrphanExample) && ReferencesIntact(OrphanExample) && SympathiesUnique(OrphanExample)
    ensures CountsInSync(OrphanExample) && BestRepliesSound(OrphanExample) && ResolvedHaveBest(OrphanExample)
  {
    assert BestReplyIds(OrphanExample.replies, 0) == {0};
    assert SympathyIds(OrphanExample.sympathies, 0) == {};
  }

  lemma OrphanExampleValid()
    ensures Valid(OrphanExample)
  {
    OrphanExampleRows();
    OrphanExampleUsers();
    OrphanExampleLinks();
    Assemble(OrphanExample);
  }

  /** Destroying a user whose reply was chosen as best leaves a resolved post without a best
    * reply: the cascade keeps the store consistent but not valid. */
  lemma DestroyUserCanOrphanResolvedPost()
    ensures Valid(OrphanExample)
    ensures !ResolvedHaveBest(DestroyUser(OrphanExample, 1).db)
  {
    OrphanExampleValid();
    OrphanAfterDestroy();
  }

  lemma OrphanAfterDestroy()
    ensures var r := DestroyUserRecord(OrphanExample, 1);
      0 in r.posts && r.posts[0].status == Resolved && BestReplyIds(r.replies, 0) == {}
  {
    var r := DestroyUserRecord(OrphanExample, 1);
    assert r.replies == map[];
  }
}
