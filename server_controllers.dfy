/**
 * The server's API actions: what each controller action does to the store and what it
 * answers. An action is a function from the store (and the request) to the new store and the
 * response. A record looked up by `find` that is missing answers 404 through the base
 * controller's `rescue_from`; an exception no handler rescues (NoMethodError,
 * AbstractController::DoubleRenderError) answers 500 and keeps whatever was committed before it.
 *
 * The owner checks render 403 but do not stop the action, so the action goes on, commits its
 * change and then fails on its second `render`. `Guard` selects that behaviour (`RendersOnly`)
 * or the evidently intended one (`Halts`). The set of service classes whose `call` is private
 * is passed through to ServiceDispatch.
 */
module ServerControllers {
  import opened Wrappers
  import opened ServerModels
  import opened ServerServices
  import opened Serializers
  import ServerQueries
  import ServiceDispatch
  import NicknameGenerator
  import ContentFilters
  import ServerRecords
  import Points
  import Text

  /** How an owner check behaves when the current user is not the owner. */
  datatype Guard = RendersOnly | Halts

  /** The owner checks as written. */
  const AsWritten: Guard := RendersOnly

  /** The `error:` of a 422 or 404 answer. */
  datatype ErrorText =
    | FromService(failure: Failure)
    | FromRescue(service: ServiceDispatch.Service)
    | NotOwner
    | NotFoundText

  datatype Body =
    | PostBody(post: PostPayload)
    | PostListBody(posts: seq<PostPayload>)
    | PostCreatedBody(post: PostPayload, pointsEarned: Option<int>)
    | ReplyListBody(replies: seq<ReplyPayload>)
    | ReplyCreatedBody(reply: ReplyPayload, pointsEarned: Option<int>)
    | SelectedBody(postPoints: Option<int>, replyPoints: Option<int>)
    | SympathyBody(sympathyCount: int, pointsEarned: Option<int>)
    | UserBody(user: UserPayload)
    | ProfileBody(user: UserPayload, stats: ServerQueries.Stats)
    | RankingBody(ranking: seq<ServerQueries.RankEntry>)
    | PointsBody(currentPoints: int)
    | MessageBody
    | ErrorBody(error: ErrorText)

  /** Why a request ended in a 500. */
  datatype Crash =
    | NoMethod(service: ServiceDispatch.Service)
    | DoubleRender
    | UndefinedMethod
    | NilReceiver
    | StatementInvalid

  datatype Response = Rendered(status: nat, body: Body) | ServerError(cause: Crash)

  /** The store after the action, and the answer. */
  datatype Exchange = Exchange(db: Db, response: Response)

  function StatusOf(r: Response): (code: nat)
    ensures r.ServerError? ==> code == 500
    ensures r.Rendered? ==> code == r.status
  {
    if r.ServerError? then 500 else r.status
  }

  function NotFound(): (r: Response)
    ensures StatusOf(r) == 404
  {
    Rendered(404, ErrorBody(NotFoundText))
  }

  // ---------------------------------------------------------------------------------------
  // PostsController

  /** `index`. */
  function PostsIndex(db: Db, viewer: Option<Id>, category: Option<string>, sort: Option<string>,
                      page: int, perPage: Option<nat>): (r: Response)
    ensures r.Rendered? && r.status == 200 && r.body.PostListBody?
    ensures |r.body.posts| <= perPage.GetOr(ServerQueries.DefaultPerPage)
    ensures forall i | 0 <= i < |r.body.posts| ::
      r.body.posts[i].id in db.posts && db.posts[r.body.posts[i].id].status == Active
  {
    Rendered(200, PostListBody(ServerQueries.Index(db, viewer, category, sort, page, perPage)))
  }

  /** `show`: any post, active or resolved; a missing one is 404. */
  function PostsShow(db: Db, pid: Id, viewer: Option<Id>): (r: Response)
    ensures pid !in db.posts ==> r == NotFound()
    ensures pid in db.posts ==> r == Rendered(200, PostBody(SerializePost(db, pid, viewer)))
  {
    if pid in db.posts then Rendered(200, PostBody(SerializePost(db, pid, viewer))) else NotFound()
  }

  /** `create`: 201 with the post and the points earned, 422 with the error otherwise. */
  function PostsCreate(priv: set<ServiceDispatch.Service>, db: Db, uid: Id, content: Option<string>,
                       category: Option<string>, draw: NicknameGenerator.Draw, now: int): (x: Exchange)
    requires NicknameGenerator.ValidDraw(draw)
    ensures StatusOf(x.response) == 201 <==>
      ServiceDispatch.CreatePostWith(priv, db, uid, content, category, draw, now).Returned?
      && ServiceDispatch.CreatePostWith(priv, db, uid, content, category, draw, now).step.result.Success?
    ensures StatusOf(x.response) != 201 ==> x.db == db
  {
    match ServiceDispatch.CreatePostWith(priv, db, uid, content, category, draw, now)
    case Returned(s) =>
      if s.result.Success? then
        Exchange(s.db, Rendered(201, PostCreatedBody(SerializePost(s.db, s.result.value.postId, Some(uid)),
                                                      s.result.value.pointsEarned)))
      else Exchange(s.db, Rendered(422, ErrorBody(FromService(s.result.error))))
    case Rescued(svc) => Exchange(db, Rendered(422, ErrorBody(FromRescue(svc))))
    case Raised(svc) => Exchange(db, ServerError(NoMethod(svc)))
  }

  /** As written, posting always answers 422, the store keeps no post and nobody gains points. */
  lemma PostsCreateAsWritten(db: Db, uid: Id, content: Option<string>, category: Option<string>,
                             draw: NicknameGenerator.Draw, now: int)
    requires NicknameGenerator.ValidDraw(draw)
    ensures PostsCreate(ServiceDispatch.DeclaredPrivate, db, uid, content, category, draw, now) ==
      Exchange(db, Rendered(422, ErrorBody(FromRescue(ServiceDispatch.ContentValidate))))
  {
    ServiceDispatch.DeclaredCreatePostAlwaysFails(db, uid, content, category, draw, now);
  }

  /** With every `call` public, posting answers 201 exactly when the content passes the filter,
    * the author exists, the content fits and the category is listed; the body shows the new
    * post as the author's own, unresolved, with no replies and no sympathies, and 10 points. */
  lemma {:induction false} PostsCreateIntended(db: Db, uid: Id, content: Option<string>, category: Option<string>,
                                               draw: NicknameGenerator.Draw, now: int)
    requires NicknameGenerator.ValidDraw(draw) && IdsBelowCounters(db) && ReferencesIntact(db)
    ensures var x := PostsCreate({}, db, uid, content, category, draw, now);
      (StatusOf(x.response) == 201 <==>
         ContentFilters.Validate(content).Success? && uid in db.users
         && |content.GetOr("")| <= 1000 && category.GetOr("") in Categories)
      && (StatusOf(x.response) == 201 ==>
            x.response.body.PostCreatedBody? && x.response.body.pointsEarned == Some(10)
            && x.response.body.post.isMine == Some(true) && !x.response.body.post.isResolved
            && x.response.body.post.replyCount == 0 && x.response.body.post.sympathyCount == 0
            && x.response.body.post.hasSympathized == Some(false))
      && (StatusOf(x.response) != 201 ==> StatusOf(x.response) == 422 && x.db == db)
  {
    ServiceDispatch.PublicCallsRunWorkflows(db, 0, 0, uid, content, category, draw, now);
    CreatePostSucceedsIff(db, uid, content, category, draw, now);
    var s := CreatePost(db, uid, content, category, draw, now);
    if s.result.Success? {
      CreatePostEffect(db, uid, content, category, draw, now);
      NewPostIsBare(db, s.db, s.result.value.postId);
    }
  }

  /** A post under an id at or above the counter has no replies and no sympathies yet. */
  lemma NewPostIsBare(db: Db, db1: Db, pid: Id)
    requires IdsBelowCounters(db) && pid >= db.nextPostId
    requires db1.replies == db.replies && db1.sympathies == db.sympathies
    requires ReferencesIntact(db)
    ensures ReplyIds(db1.replies, pid) == {}
    ensures forall v :: !HasSympathized(db1, pid, v)
  {
  }

  /** `update`: the owner check, then `@post.update(post_params)`. */
  function PostsUpdate(guard: Guard, db: Db, pid: Id, uid: Id, content: Option<string>,
                       category: Option<string>): (x: Exchange)
    ensures pid !in db.posts ==> x == Exchange(db, NotFound())
    ensures pid in db.posts && db.posts[pid].userId == uid ==>
      x.db == UpdatePost(db, pid, content, category).db
      && (x.response.Rendered? && (x.response.status == 200 <==> UpdatePost(db, pid, content, category).result.Success?))
    ensures pid in db.posts && db.posts[pid].userId != uid && guard == Halts ==>
      x == Exchange(db, Rendered(403, ErrorBody(NotOwner)))
    ensures pid in db.posts && db.posts[pid].userId != uid && guard == RendersOnly ==>
      x == Exchange(UpdatePost(db, pid, content, category).db, ServerError(DoubleRender))
  {
    if pid !in db.posts then Exchange(db, NotFound())
    else if db.posts[pid].userId != uid && guard == Halts then Exchange(db, Rendered(403, ErrorBody(NotOwner)))
    else
      var s := UpdatePost(db, pid, content, category);
      if db.posts[pid].userId != uid then Exchange(s.db, ServerError(DoubleRender))
      else if s.result.Success? then Exchange(s.db, Rendered(200, PostBody(SerializePost(s.db, pid, Some(uid)))))
      else Exchange(s.db, Rendered(422, ErrorBody(FromService(s.result.error))))
  }

  /** `destroy`: the owner check, then `@post.destroy`. */
  function PostsDestroy(guard: Guard, db: Db, pid: Id, uid: Id): (x: Exchange)
    ensures pid !in db.posts ==> x == Exchange(db, NotFound())
    ensures pid in db.posts && db.posts[pid].userId == uid ==>
      x == Exchange(DestroyPost(db, pid).db, Rendered(200, MessageBody))
    ensures pid in db.posts && db.posts[pid].userId != uid && guard == Halts ==>
      x == Exchange(db, Rendered(403, ErrorBody(NotOwner)))
    ensures pid in db.posts && db.posts[pid].userId != uid && guard == RendersOnly ==>
      x == Exchange(DestroyPost(db, pid).db, ServerError(DoubleRender))
  {
    if pid !in db.posts then Exchange(db, NotFound())
    else if db.posts[pid].userId != uid && guard == Halts then Exchange(db, Rendered(403, ErrorBody(NotOwner)))
    else
      var s := DestroyPost(db, pid);
      if db.posts[pid].userId != uid then Exchange(s.db, ServerError(DoubleRender))
      else Exchange(s.db, Rendered(200, MessageBody))
  }

  /** As written, anyone can edit someone else's post: the edit is stored and the answer is a
    * 500, not a 403. */
  lemma NonOwnerEditsPost(db: Db, pid: Id, uid: Id, content: string)
    requires PostsValid(db) && ReferencesIntact(db) && pid in db.posts && db.posts[pid].userId != uid
    requires content != [] && !Text.IsWhitespace(content[0]) && |content| <= 1000
    ensures var x := PostsUpdate(AsWritten, db, pid, uid, Some(content), None);
      StatusOf(x.response) == 500 && pid in x.db.posts && x.db.posts[pid].content == content
  {
    var p := db.posts[pid];
    assert PostFieldErrors(p) == [];
    var q := p.(content := content);
    assert !Text.IsBlank(q.content);
    assert PostErrors(db, q) == [];
  }

  /** As written, anyone can delete someone else's post: it is gone and the answer is a 500. */
  lemma NonOwnerDeletesPost(db: Db, pid: Id, uid: Id)
    requires pid in db.posts && db.posts[pid].userId != uid
    ensures var x := PostsDestroy(AsWritten, db, pid, uid);
      StatusOf(x.response) == 500 && pid !in x.db.posts
  {
  }

  /** With the check halting, a non-owner is refused with 403 and the store is untouched; the
    * owner is served the same either way. */
  lemma OwnerCheckIntended(db: Db, pid: Id, uid: Id, content: Option<string>, category: Option<string>)
    ensures pid in db.posts && db.posts[pid].userId != uid ==>
      PostsUpdate(Halts, db, pid, uid, content, category).db == db
      && StatusOf(PostsUpdate(Halts, db, pid, uid, content, category).response) == 403
      && PostsDestroy(Halts, db, pid, uid).db == db
      && StatusOf(PostsDestroy(Halts, db, pid, uid).response) == 403
    ensures pid !in db.posts || db.posts[pid].userId == uid ==>
      PostsUpdate(Halts, db, pid, uid, content, category) == PostsUpdate(RendersOnly, db, pid, uid, content, category)
      && PostsDestroy(Halts, db, pid, uid) == PostsDestroy(RendersOnly, db, pid, uid)
  {
  }

  // ---------------------------------------------------------------------------------------
  // RepliesController

  /** `index`: the post's replies, newest first; a missing post is 404. */
  function RepliesIndex(db: Db, pid: Id, viewer: Option<Id>): (r: Response)
    ensures pid !in db.posts ==> r == NotFound()
    ensures pid in db.posts ==> r == Rendered(200, ReplyListBody(ServerQueries.RepliesIndex(db, pid, viewer)))
  {
    if pid in db.posts then Rendered(200, ReplyListBody(ServerQueries.RepliesIndex(db, pid, viewer)))
    else NotFound()
  }

  /** `create`: 201 with the reply and the points earned, 422 with the error otherwise. */
  function RepliesCreate(priv: set<ServiceDispatch.Service>, db: Db, pid: Id, uid: Id, content: Option<string>,
                         now: int): (x: Exchange)
    ensures pid !in db.posts ==> x == Exchange(db, NotFound())
    ensures pid in db.posts ==>
      (StatusOf(x.response) == 201 <==>
         ServiceDispatch.CreateReplyWith(priv, db, pid, uid, content, now).Returned?
         && ServiceDispatch.CreateReplyWith(priv, db, pid, uid, content, now).step.result.Success?)
    ensures StatusOf(x.response) != 201 ==> x.db == db
  {
    if pid !in db.posts then Exchange(db, NotFound())
    else
      match ServiceDispatch.CreateReplyWith(priv, db, pid, uid, content, now)
      case Returned(s) =>
        if s.result.Success? then
          Exchange(s.db, Rendered(201, ReplyCreatedBody(SerializeReply(s.db, s.result.value.replyId, Some(uid)),
                                                         s.result.value.pointsEarned)))
        else Exchange(s.db, Rendered(422, ErrorBody(FromService(s.result.error))))
      case Rescued(svc) => Exchange(db, Rendered(422, ErrorBody(FromRescue(svc))))
      case Raised(svc) => Exchange(db, ServerError(NoMethod(svc)))
  }

  /** With every `call` public, a reply to an active post answers 201 exactly when the content
    * passes, the replier exists and the content fits; it is the replier's own, not best, and
    * earns 5. A reply to a resolved post answers 422 with the resolved-post error. */
  lemma {:induction false} RepliesCreateIntended(db: Db, pid: Id, uid: Id, content: Option<string>, now: int)
    requires pid in db.posts && IdsBelowCounters(db)
    ensures var x := RepliesCreate({}, db, pid, uid, content, now);
      (StatusOf(x.response) == 201 <==>
         db.posts[pid].status == Active && ContentFilters.Validate(content).Success?
         && uid in db.users && |content.GetOr("")| <= 500)
      && (StatusOf(x.response) == 201 ==>
            x.response.body.ReplyCreatedBody? && x.response.body.pointsEarned == Some(5)
            && x.response.body.reply.isMine == Some(true) && !x.response.body.reply.isBest
            && x.response.body.reply.userNickname == ReplyNickname(uid))
      && (db.posts[pid].status == Resolved ==>
            x == Exchange(db, Rendered(422, ErrorBody(FromService(PostAlreadyResolved)))))
  {
    ServiceDispatch.PublicCallsRunWorkflows(db, pid, 0, uid, content, None, NicknameGenerator.Draw(0, 0, 1), now);
    CreateReplySucceedsIff(db, pid, uid, content, now);
    if CreateReply(db, pid, uid, content, now).result.Success? {
      CreateReplyEffect(db, pid, uid, content, now);
    }
  }

  /** `select_best`: `set_reply` finds the reply among the post's own (404 otherwise), then the
    * owner check, then the service. */
  function RepliesSelectBest(guard: Guard, priv: set<ServiceDispatch.Service>, db: Db, pid: Id, rid: Id,
                             uid: Id): (x: Exchange)
    ensures pid !in db.posts || ServerQueries.FindReply(db, pid, rid).None? ==> x == Exchange(db, NotFound())
    ensures pid in db.posts && db.posts[pid].userId != uid && guard == Halts ==>
      x.db == db && (ServerQueries.FindReply(db, pid, rid).Some? ==> StatusOf(x.response) == 403)
    ensures pid in db.posts && db.posts[pid].userId != uid && guard == RendersOnly ==>
      StatusOf(x.response) == 500 || x.response == NotFound()
    ensures x.response.Rendered? && x.response.status != 200 ==> x.db == db
  {
    if pid !in db.posts || ServerQueries.FindReply(db, pid, rid).None? then Exchange(db, NotFound())
    else if db.posts[pid].userId != uid && guard == Halts then Exchange(db, Rendered(403, ErrorBody(NotOwner)))
    else
      match ServiceDispatch.SelectBestWith(priv, db, pid, rid)
      case Raised(svc) => Exchange(db, ServerError(NoMethod(svc)))
      case Rescued(svc) =>
        if db.posts[pid].userId != uid then Exchange(db, ServerError(DoubleRender))
        else Exchange(db, Rendered(422, ErrorBody(FromRescue(svc))))
      case Returned(s) =>
        if db.posts[pid].userId != uid then Exchange(s.db, ServerError(DoubleRender))
        else if s.result.Success? then
          Exchange(s.db, Rendered(200, SelectedBody(s.result.value.postPoints, s.result.value.replyPoints)))
        else Exchange(s.db, Rendered(422, ErrorBody(FromService(s.result.error))))
  }

  /** Through the controller the service never sees a reply of another post: `set_reply` has
    * already answered 404 for it. */
  lemma SelectBestNeverCrossPost(guard: Guard, priv: set<ServiceDispatch.Service>, db: Db, pid: Id, rid: Id, uid: Id)
    ensures RepliesSelectBest(guard, priv, db, pid, rid, uid).response != Rendered(422, ErrorBody(FromService(ReplyOfOtherPost)))
  {
  }

  /** With every `call` public but the check as written, anyone can settle someone else's post:
    * the post is resolved, the awards are paid, and the answer is a 500. */
  lemma {:induction false} NonOwnerSelectsBest(db: Db, pid: Id, rid: Id, uid: Id)
    requires Consistent(db) && pid in db.posts && rid in db.replies && db.replies[rid].postId == pid
    requires db.posts[pid].status == Active && db.posts[pid].userId != uid
    ensures var x := RepliesSelectBest(AsWritten, {}, db, pid, rid, uid);
      StatusOf(x.response) == 500 && x.db == SelectBest(db, pid, rid).db
      && x.db.posts[pid].status == Resolved
  {
    SelectBestRoute(AsWritten, db, pid, rid, uid);
    SelectBestResolves(db, pid, rid);
  }

  /** With the check halting and every `call` public, the owner's selection of a reply of an
    * active post answers 200 with 50 and 30 points. */
  lemma {:induction false} OwnerSelectsBest(db: Db, pid: Id, rid: Id)
    requires Consistent(db) && pid in db.posts && rid in db.replies && db.replies[rid].postId == pid
    requires db.posts[pid].status == Active
    ensures var x := RepliesSelectBest(Halts, {}, db, pid, rid, db.posts[pid].userId);
      x == Exchange(SelectBest(db, pid, rid).db, Rendered(200, SelectedBody(Some(50), Some(30))))
  {
    SelectBestRoute(Halts, db, pid, rid, db.posts[pid].userId);
    SelectBestResolves(db, pid, rid);
  }

  /** With every `call` public, a reply of the post that gets past the owner check goes to the
    * service, and its outcome is answered with or after the second render. */
  lemma SelectBestRoute(guard: Guard, db: Db, pid: Id, rid: Id, uid: Id)
    requires pid in db.posts && rid in db.replies && db.replies[rid].postId == pid
    requires guard == RendersOnly || db.posts[pid].userId == uid
    ensures var s := SelectBest(db, pid, rid);
      RepliesSelectBest(guard, {}, db, pid, rid, uid) ==
        if db.posts[pid].userId != uid then Exchange(s.db, ServerError(DoubleRender))
        else if s.result.Success? then
          Exchange(s.db, Rendered(200, SelectedBody(s.result.value.postPoints, s.result.value.replyPoints)))
        else Exchange(s.db, Rendered(422, ErrorBody(FromService(s.result.error))))
  {
  }

  /** The part of a successful selection the controller answers with. */
  lemma {:induction false} SelectBestResolves(db: Db, pid: Id, rid: Id)
    requires Consistent(db) && pid in db.posts && rid in db.replies && db.replies[rid].postId == pid
    requires db.posts[pid].status == Active
    ensures var s := SelectBest(db, pid, rid);
      s.result == Success(BestSelected(Some(50), Some(30)))
      && pid in s.db.posts && s.db.posts[pid].status == Resolved
  {
    SelectBestEffect(db, pid, rid);
  }

  // ---------------------------------------------------------------------------------------
  // SympathiesController

  /** `create`: 201 with the new count and the points earned, 422 with the error otherwise. */
  function SympathiesCreate(priv: set<ServiceDispatch.Service>, db: Db, pid: Id, uid: Id, now: int): (x: Exchange)
    ensures pid !in db.posts ==> x == Exchange(db, NotFound())
    ensures pid in db.posts ==>
      (StatusOf(x.response) == 201 <==>
         ServiceDispatch.GiveSympathyWith(priv, db, pid, uid, now).Returned?
         && ServiceDispatch.GiveSympathyWith(priv, db, pid, uid, now).step.result.Success?)
    ensures StatusOf(x.response) == 201 ==>
      pid in x.db.posts && x.response.body == SympathyBody(x.db.posts[pid].sympathyCount, Some(1))
    ensures StatusOf(x.response) != 201 ==> x.db == db
  {
    if pid !in db.posts then Exchange(db, NotFound())
    else
      match ServiceDispatch.GiveSympathyWith(priv, db, pid, uid, now)
      case Returned(s) =>
        if s.result.Success? then
          GivenCountIsStored(db, pid, uid, now);
          Exchange(s.db, Rendered(201, SympathyBody(s.result.value.sympathyCount, Some(s.result.value.pointsEarned))))
        else Exchange(s.db, Rendered(422, ErrorBody(FromService(s.result.error))))
      case Rescued(svc) => Exchange(db, Rendered(422, ErrorBody(FromRescue(svc))))
      case Raised(svc) => Exchange(db, ServerError(NoMethod(svc)))
  }

  /** The count a successful sympathy reports is the one stored. */
  lemma GivenCountIsStored(db: Db, pid: Id, uid: Id, now: int)
    requires pid in db.posts && GiveSympathy(db, pid, uid, now).result.Success?
    ensures pid in GiveSympathy(db, pid, uid, now).db.posts
    ensures GiveSympathy(db, pid, uid, now).result.value.sympathyCount ==
      GiveSympathy(db, pid, uid, now).db.posts[pid].sympathyCount
  {
    var row := Sympathy(pid, uid, now);
    var db1 := ServerRecords.CreateSympathyRecord(db, row).value;
    var (db2, _) := Award(db1, db1.posts[pid].userId, Points.SympathyReceived, None);
    assert db2.posts == db1.posts;
  }

  /** `destroy`: the current user's sympathy on the post is removed and the reloaded count
    * returned; without one, 404 and nothing changes. No points are taken back. */
  function SympathiesDestroy(db: Db, pid: Id, uid: Id): (x: Exchange)
    ensures pid !in db.posts ==> x == Exchange(db, NotFound())
    ensures pid in db.posts ==> x.db == RemoveSympathy(db, pid, uid).db
    ensures x.db.users == db.users
    ensures pid in db.posts ==>
      (StatusOf(x.response) == 200 <==> RemoveSympathy(db, pid, uid).result.Success?)
    ensures StatusOf(x.response) != 200 ==> x.db == db && StatusOf(x.response) == 404
  {
    if pid !in db.posts then Exchange(db, NotFound())
    else
      var s := RemoveSympathy(db, pid, uid);
      if s.result.Success? then Exchange(s.db, Rendered(200, SympathyBody(s.result.value.sympathyCount, None)))
      else Exchange(s.db, Rendered(404, ErrorBody(FromService(s.result.error))))
  }

  /** Giving then removing a sympathy through the API (every `call` public) answers 201 then
    * 200, that second answer showing the original count, and leaves the posts and the
    * sympathy rows as they were; the owner keeps the point. */
  lemma {:induction false} GiveThenTakeBack(db: Db, pid: Id, uid: Id, now: int)
    requires IdsBelowCounters(db) && ReferencesIntact(db)
    requires pid in db.posts && uid in db.users && !HasSympathized(db, pid, uid)
    ensures var x1 := SympathiesCreate({}, db, pid, uid, now);
      var x2 := SympathiesDestroy(x1.db, pid, uid);
      StatusOf(x1.response) == 201 && StatusOf(x2.response) == 200
      && x2.response.body == SympathyBody(db.posts[pid].sympathyCount, None)
      && x2.db.posts == db.posts && x2.db.sympathies == db.sympathies
      && x2.db.users[db.posts[pid].userId].totalPoints == db.users[db.posts[pid].userId].totalPoints + 1
  {
    ServiceDispatch.PublicCallsRunWorkflows(db, pid, 0, uid, None, None, NicknameGenerator.Draw(0, 0, 1), now);
    GiveThenRemoveRestoresCount(db, pid, uid, now);
    GiveSympathyEffect(db, pid, uid, now);
  }

  /** A sympathy shows on the profile pages: the giver has given one more, the post's owner has
    * received one more, and everybody else's figures are as they were. */
  lemma {:induction false} SympathyUpdatesStats(db: Db, pid: Id, uid: Id, now: int, v: Id)
    requires IdsBelowCounters(db) && ReferencesIntact(db)
    requires pid in db.posts && uid in db.users && !HasSympathized(db, pid, uid)
    ensures var db1 := GiveSympathy(db, pid, uid, now).db;
      ServerQueries.UserStats(db1, v).sympathiesGiven ==
        ServerQueries.UserStats(db, v).sympathiesGiven + (if v == uid then 1 else 0)
      && ServerQueries.UserStats(db1, v).sympathiesReceived ==
        ServerQueries.UserStats(db, v).sympathiesReceived + (if v == db.posts[pid].userId then 1 else 0)
  {
    GiveSympathyEffect(db, pid, uid, now);
    var db1 := GiveSympathy(db, pid, uid, now).db;
    assert db1.nextPostId == db.nextPostId;
    var p := db.posts[pid];
    assert db1.posts == db.posts[pid := p.(sympathyCount := p.sympathyCount + 1)];
    GivenAfterInsert(db, db1, Sympathy(pid, uid, now), v);
    ReceivedAfterBump(db, db1, pid, v);
  }

  /** One more sympathy row by `row.userId` counts once for that user and for nobody else. */
  lemma {:induction false} GivenAfterInsert(db: Db, db1: Db, row: Sympathy, v: Id)
    requires db.nextSympathyId !in db.sympathies
    requires db1.sympathies == db.sympathies[db.nextSympathyId := row]
    ensures |ServerQueries.SympathiesOf(db1, v)| ==
      |ServerQueries.SympathiesOf(db, v)| + (if v == row.userId then 1 else 0)
  {
    var n := db.nextSympathyId;
    if v == row.userId {
      assert ServerQueries.SympathiesOf(db1, v) == ServerQueries.SympathiesOf(db, v) + {n};
    } else {
      assert ServerQueries.SympathiesOf(db1, v) == ServerQueries.SympathiesOf(db, v);
    }
  }

  /** One more on one post's count is one more received for its owner and for nobody else. */
  lemma {:induction false} ReceivedAfterBump(db: Db, db1: Db, pid: Id, v: Id)
    requires IdsBelowCounters(db) && pid in db.posts && db1.nextPostId == db.nextPostId
    requires db1.posts == db.posts[pid := db.posts[pid].(sympathyCount := db.posts[pid].sympathyCount + 1)]
    ensures ServerQueries.UserStats(db1, v).sympathiesReceived ==
      ServerQueries.UserStats(db, v).sympathiesReceived + (if v == db.posts[pid].userId then 1 else 0)
  {
    var ids := IdsOf(db.posts, db.nextPostId);
    IdsOfSameKeys(db.posts, db1.posts, db.nextPostId);
    IdsOfComplete(db.posts, db.nextPostId, pid);
    Ordering.MultiplicityOfDistinct(ids, pid);
    ServerQueries.CountSumBump(db.posts, ids, v, pid);
  }

  /** After a sympathy the post shows it to its giver: the flag is set and the count is one
    * higher. */
  lemma {:induction false} SympathyShowsOnPost(db: Db, pid: Id, uid: Id, now: int)
    requires IdsBelowCounters(db) && ReferencesIntact(db)
    requires pid in db.posts && uid in db.users && !HasSympathized(db, pid, uid)
    ensures var x := SympathiesCreate({}, db, pid, uid, now);
      var r := PostsShow(x.db, pid, Some(uid));
      r.Rendered? && r.body.PostBody? && r.body.post.hasSympathized == Some(true)
      && r.body.post.sympathyCount == db.posts[pid].sympathyCount + 1
  {
    ServiceDispatch.PublicCallsRunWorkflows(db, pid, 0, uid, None, None, NicknameGenerator.Draw(0, 0, 1), now);
    GiveSympathyEffect(db, pid, uid, now);
    var db1 := GiveSympathy(db, pid, uid, now).db;
    assert db1.sympathies[db.nextSympathyId] == Sympathy(pid, uid, now);
    assert HasSympathized(db1, pid, uid);
  }

  /** After a new reply the post's listing counts one more reply. */
  lemma {:induction false} ReplyShowsOnPost(db: Db, pid: Id, uid: Id, content: Option<string>, now: int,
                                            viewer: Option<Id>)
    requires IdsBelowCounters(db) && pid in db.posts
    requires StatusOf(RepliesCreate({}, db, pid, uid, content, now).response) == 201
    ensures var x := RepliesCreate({}, db, pid, uid, content, now);
      pid in x.db.posts
      && SerializePost(x.db, pid, viewer).replyCount == SerializePost(db, pid, viewer).replyCount + 1
  {
    ServiceDispatch.PublicCallsRunWorkflows(db, pid, 0, uid, content, None, NicknameGenerator.Draw(0, 0, 1), now);
    CreateReplyEffect(db, pid, uid, content, now);
    var s := CreateReply(db, pid, uid, content, now);
    assert RepliesCreate({}, db, pid, uid, content, now).db == s.db;
    ReplyCountAfterInsert(db.replies, s.db.replies, db.nextReplyId, pid);
  }

  /** Inserting a reply on a post under a fresh id adds one to the post's replies. */
  lemma {:induction false} ReplyCountAfterInsert(m: map<Id, Reply>, m1: map<Id, Reply>, id: Id, pid: Id)
    requires id !in m && id in m1 && m1[id].postId == pid && m1 == m[id := m1[id]]
    ensures |ReplyIds(m1, pid)| == |ReplyIds(m, pid)| + 1
  {
    assert ReplyIds(m1, pid) == ReplyIds(m, pid) + {id};
  }

  // ---------------------------------------------------------------------------------------
  // ProfilesController and UsersController

  /** `ProfilesController#show`: the current user's serialized row and statistics. */
  function ProfilesShow(db: Db, uid: Id): (r: Response)
    requires uid in db.users
    ensures r.Rendered? && r.status == 200 && r.body.ProfileBody?
    ensures r.body.user == SerializeUser(db, uid) && r.body.stats == ServerQueries.UserStats(db, uid)
    ensures r.body.stats.totalPosts == r.body.stats.activePosts + r.body.stats.resolvedPosts
    ensures PostsValid(db) ==> r.body.stats.sympathiesReceived >= 0
  {
    var stats := ServerQueries.UserStats(db, uid);
    assert PostsValid(db) ==> stats.sympathiesReceived >= 0 by {
      if PostsValid(db) {
        ServerQueries.ReceivedNonNegative(db, uid);
      }
    }
    Rendered(200, ProfileBody(SerializeUser(db, uid), stats))
  }

  /** After a successful profile update the profile shows the row the update answered, and
    * the statistics are those from before the update. */
  lemma ProfileAfterUpdate(db: Db, uid: Id, email: Option<string>, nickname: Option<Option<string>>)
    requires uid in db.users && StatusOf(ProfilesUpdate(db, uid, email, nickname).response) == 200
    ensures var x := ProfilesUpdate(db, uid, email, nickname);
      ProfilesShow(x.db, uid).body.user == x.response.body.user
      && ProfilesShow(x.db, uid).body.stats == ProfilesShow(db, uid).body.stats
  {
    var x := ProfilesUpdate(db, uid, email, nickname);
    assert x.db == db.(users := x.db.users);
    ServerQueries.StatsIgnoreUsers(db, x.db.users, uid);
  }

  /** `ProfilesController#update`: only email and nickname reach the model. A validation
    * failure is 422 with the messages; `ActiveRecord::ValueTooLong` is rescued by nobody and
    * answers 500. */
  function ProfilesUpdate(db: Db, uid: Id, email: Option<string>, nickname: Option<Option<string>>): (x: Exchange)
    requires uid in db.users
    ensures x.db == UpdateProfile(db, uid, email, nickname).db
    ensures StatusOf(x.response) == 200 <==> UpdateProfile(db, uid, email, nickname).result.Success?
    ensures StatusOf(x.response) == 422 <==>
      (UpdateProfile(db, uid, email, nickname).result.Failure? && UpdateProfile(db, uid, email, nickname).result.error.Invalid?)
    ensures StatusOf(x.response) == 500 <==> UpdateProfile(db, uid, email, nickname).result == Failure(ValueTooLong)
    ensures StatusOf(x.response) != 200 ==> x.db == db
    ensures x.db.users[uid].totalPoints == db.users[uid].totalPoints
    ensures StatusOf(x.response) == 200 ==>
      x.response.body == UserBody(SerializeUser(x.db, uid))
      && x.response.body.user.email == (if email.Some? then NormalizedEmail(email.value) else db.users[uid].email)
      && x.response.body.user.nickname == nickname.GetOr(db.users[uid].nickname)
  {
    var s := UpdateProfile(db, uid, email, nickname);
    UpdateProfileTouchesOneUser(db, uid, email, nickname);
    if s.result.Success? then Exchange(s.db, Rendered(200, UserBody(SerializeUser(s.db, uid))))
    else if s.result.error.Invalid? then Exchange(s.db, Rendered(422, ErrorBody(FromService(s.result.error))))
    else Exchange(s.db, ServerError(StatementInvalid))
  }

  /** A nickname over 30 characters is a 500 that leaves the store as it was. */
  lemma ProfilesUpdateLongNickname(db: Db, uid: Id, nickname: string)
    requires UsersValid(db) && uid in db.users && |nickname| > NicknameLimit
    ensures ProfilesUpdate(db, uid, None, Some(Some(nickname))) == Exchange(db, ServerError(StatementInvalid))
  {
    UpdateProfileNicknameTooLong(db, uid, nickname);
  }

  /** `UsersController#show`: any user by id, with their email; a missing one is 404. */
  function UsersShow(db: Db, uid: Id): (r: Response)
    ensures uid !in db.users ==> r == NotFound()
    ensures uid in db.users ==> r == Rendered(200, UserBody(SerializeUser(db, uid)))
  {
    if uid in db.users then Rendered(200, UserBody(SerializeUser(db, uid))) else NotFound()
  }

  /** After a successful profile update, showing the user shows what the update answered. */
  lemma ShowAfterProfileUpdate(db: Db, uid: Id, email: Option<string>, nickname: Option<Option<string>>)
    requires uid in db.users && StatusOf(ProfilesUpdate(db, uid, email, nickname).response) == 200
    ensures var x := ProfilesUpdate(db, uid, email, nickname);
      UsersShow(x.db, uid) == x.response
  {
  }

  /** `UsersController#ranking`, as written (`fixed` false) or with `display_nickname` and the
    * repeat count corrected. */
  function UsersRanking(fixed: bool, db: Db, limit: Option<nat>): (r: Response)
    ensures !fixed ==> (r.Rendered? <==> ServerQueries.Top(db, limit) == [])
    ensures fixed && ServerQueries.Ranking(db, limit).Success? ==>
      r == Rendered(200, RankingBody(ServerQueries.Ranking(db, limit).value))
    ensures fixed && ServerQueries.Ranking(db, limit).Failure? ==> r == ServerError(NilReceiver)
  {
    if fixed then
      match ServerQueries.Ranking(db, limit)
      case Success(entries) => Rendered(200, RankingBody(entries))
      case Failure(_) => ServerError(NilReceiver)
    else
      match ServerQueries.RankingAsWritten(db, limit)
      case Success(entries) => Rendered(200, RankingBody(entries))
      case Failure(_) => ServerError(UndefinedMethod)
  }

  /** As written, the ranking answers 500 as soon as there is one user to list. */
  lemma RankingCrashesWithUsers(db: Db, limit: Option<nat>)
    requires IdsBelowCounters(db) && db.users != map[] && limit.GetOr(ServerQueries.DefaultLimit) > 0
    ensures StatusOf(UsersRanking(false, db, limit)) == 500
  {
    var u :| u in db.users;
    IdsOfComplete(db.users, db.nextUserId, u);
  }

  /** `UsersController#points_history`: the user's current points; 404 for an unknown id. */
  function UsersPointsHistory(db: Db, uid: Id): (r: Response)
    ensures uid !in db.users ==> r == NotFound()
    ensures uid in db.users ==> r == Rendered(200, PointsBody(db.users[uid].totalPoints))
  {
    match Balance(db, uid)
    case None => NotFound()
    case Some(p) => Rendered(200, PointsBody(p))
  }
}
