/**
 * How the server's service objects are entered. Each service class has a public class method
 * `self.call(...)` that builds an instance and sends it `call`. Four of the classes declare
 * `private` before their instance method `call`, so that send raises NoMethodError; the other
 * two (Posts::CreateService, Replies::CreateService) keep `call` public and rescue every
 * StandardError raised inside it, NoMethodError included, into `{success: false, error:}`.
 *
 * The set of classes whose instance `call` is private is a parameter. With the set the source
 * declares, every creation fails and every sympathy and best-answer selection raises; with the
 * empty set, which is evidently what was meant, each entry point runs the workflow modelled in
 * ServerServices.
 */
module ServiceDispatch {
  import opened Wrappers
  import opened ServerModels
  import opened ServerServices
  import ContentFilters
  import NicknameGenerator

  /** The service classes entered through `self.call`. */
  datatype Service =
    | PostsCreate
    | RepliesCreate
    | SympathiesCreate
    | SelectBestReply
    | PointsCalculate
    | ContentValidate

  /** The classes whose instance method `call` follows a `private` line, as written. */
  const DeclaredPrivate: set<Service> := {SympathiesCreate, SelectBestReply, PointsCalculate, ContentValidate}

  /** How an entry point ends: it returns its result hash; or a NoMethodError from the service
    * `failedIn` is rescued by the enclosing service, whose transaction rolls back, and the hash
    * is `{success: false}` with the exception's message; or the NoMethodError escapes to the
    * controller, which does not rescue it (a 500). Only `Returned` carries a new store. */
  datatype Outcome<T> =
    | Returned(step: Step<T>)
    | Rescued(failedIn: Service)
    | Raised(failedIn: Service)

  /** The store once the entry point is done. */
  function StoreAfter<T>(db: Db, o: Outcome<T>): (r: Db)
    ensures !o.Returned? ==> r == db
    ensures o.Returned? ==> r == o.step.db
  {
    if o.Returned? then o.step.db else db
  }

  /** `Posts::CreateService.call`: its own `call` is public; inside the transaction the content
    * check goes through ContentFilters::ValidateService, and once `Post.create!` has succeeded
    * the points go through Points::CalculateService; a NoMethodError from either is rescued. */
  function CreatePostWith(priv: set<Service>, db: Db, uid: Id, content: Option<string>,
                          category: Option<string>, draw: NicknameGenerator.Draw, now: int): (o: Outcome<PostCreated>)
    requires NicknameGenerator.ValidDraw(draw)
    ensures o.Returned? <==>
      PostsCreate !in priv && ContentValidate !in priv
      && (PointsCalculate in priv ==> CreatePost(db, uid, content, category, draw, now).result.Failure?)
    ensures o.Returned? ==> o.step == CreatePost(db, uid, content, category, draw, now)
    ensures o.Raised? ==> o.failedIn == PostsCreate
  {
    if PostsCreate in priv then Raised(PostsCreate)
    else if ContentValidate in priv then Rescued(ContentValidate)
    else
      var s := CreatePost(db, uid, content, category, draw, now);
      if PointsCalculate in priv && s.result.Success? then Rescued(PointsCalculate)
      else Returned(s)
  }

  /** `Replies::CreateService.call`: the resolved-post guard comes before the transaction, so it
    * is answered whatever the visibility of the inner services. */
  function CreateReplyWith(priv: set<Service>, db: Db, pid: Id, uid: Id, content: Option<string>,
                           now: int): (o: Outcome<ReplyCreated>)
    requires pid in db.posts
    ensures o.Returned? <==>
      RepliesCreate !in priv
      && (db.posts[pid].status == Active ==>
            ContentValidate !in priv
            && (PointsCalculate in priv ==> CreateReply(db, pid, uid, content, now).result.Failure?))
    ensures o.Returned? ==> o.step == CreateReply(db, pid, uid, content, now)
    ensures o.Raised? ==> o.failedIn == RepliesCreate
  {
    if RepliesCreate in priv then Raised(RepliesCreate)
    else if db.posts[pid].status == Resolved then Returned(CreateReply(db, pid, uid, content, now))
    else if ContentValidate in priv then
      assert db.posts[pid].status == Active;
      Rescued(ContentValidate)
    else
      var s := CreateReply(db, pid, uid, content, now);
      if PointsCalculate in priv && s.result.Success? then Rescued(PointsCalculate)
      else Returned(s)
  }

  /** `Sympathies::CreateService.call`: the points go through Points::CalculateService once
    * the row has been created. */
  function GiveSympathyWith(priv: set<Service>, db: Db, pid: Id, uid: Id, now: int): (o: Outcome<SympathyGiven>)
    requires pid in db.posts
    ensures o.Returned? <==>
      SympathiesCreate !in priv
      && (PointsCalculate in priv ==> GiveSympathy(db, pid, uid, now).result.Failure?)
    ensures o.Returned? ==> o.step == GiveSympathy(db, pid, uid, now)
    ensures o.Raised? ==> o.failedIn == SympathiesCreate
  {
    if SympathiesCreate in priv then Raised(SympathiesCreate)
    else
      var s := GiveSympathy(db, pid, uid, now);
      if PointsCalculate in priv && s.result.Success? then Rescued(PointsCalculate)
      else Returned(s)
  }

  /** `Replies::SelectBestService.call`: both awards go through Points::CalculateService once
    * the post has been resolved. */
  function SelectBestWith(priv: set<Service>, db: Db, pid: Id, rid: Id): (o: Outcome<BestSelected>)
    requires pid in db.posts && rid in db.replies
    ensures o.Returned? <==>
      SelectBestReply !in priv
      && (PointsCalculate in priv ==> SelectBest(db, pid, rid).result.Failure?)
    ensures o.Returned? ==> o.step == SelectBest(db, pid, rid)
    ensures o.Raised? ==> o.failedIn == SelectBestReply
  {
    if SelectBestReply in priv then Raised(SelectBestReply)
    else
      var s := SelectBest(db, pid, rid);
      if PointsCalculate in priv && s.result.Success? then Rescued(PointsCalculate)
      else Returned(s)
  }

  /** As written, post creation never gets past the content check: every call is answered with
    * a rescued NoMethodError and the store keeps no post. */
  lemma DeclaredCreatePostAlwaysFails(db: Db, uid: Id, content: Option<string>, category: Option<string>,
                                      draw: NicknameGenerator.Draw, now: int)
    requires NicknameGenerator.ValidDraw(draw)
    ensures CreatePostWith(DeclaredPrivate, db, uid, content, category, draw, now) == Rescued(ContentValidate)
    ensures StoreAfter(db, CreatePostWith(DeclaredPrivate, db, uid, content, category, draw, now)) == db
  {
  }

  /** As written, a reply to an active post fails the same way; only the resolved-post refusal
    * comes through as intended. */
  lemma DeclaredCreateReplyAlwaysFails(db: Db, pid: Id, uid: Id, content: Option<string>, now: int)
    requires pid in db.posts
    ensures db.posts[pid].status == Active ==>
      CreateReplyWith(DeclaredPrivate, db, pid, uid, content, now) == Rescued(ContentValidate)
    ensures db.posts[pid].status == Resolved ==>
      CreateReplyWith(DeclaredPrivate, db, pid, uid, content, now) == Returned(Step(db, Failure(PostAlreadyResolved)))
  {
  }

  /** As written, giving a sympathy and selecting a best reply raise out of `self.call`, before
    * any guard runs, leaving the store as it was. */
  lemma DeclaredSympathyAndSelectionRaise(db: Db, pid: Id, uid: Id, rid: Id, now: int)
    requires pid in db.posts && rid in db.replies
    ensures GiveSympathyWith(DeclaredPrivate, db, pid, uid, now) == Raised(SympathiesCreate)
    ensures SelectBestWith(DeclaredPrivate, db, pid, rid) == Raised(SelectBestReply)
  {
  }

  /** With every `call` public the entry points run the workflows: the models of ServerServices
    * are the corrected behaviour. */
  lemma PublicCallsRunWorkflows(db: Db, pid: Id, rid: Id, uid: Id, content: Option<string>,
                                category: Option<string>, draw: NicknameGenerator.Draw, now: int)
    requires NicknameGenerator.ValidDraw(draw)
    ensures CreatePostWith({}, db, uid, content, category, draw, now) == Returned(CreatePost(db, uid, content, category, draw, now))
    ensures pid in db.posts ==>
      CreateReplyWith({}, db, pid, uid, content, now) == Returned(CreateReply(db, pid, uid, content, now))
    ensures pid in db.posts ==>
      GiveSympathyWith({}, db, pid, uid, now) == Returned(GiveSympathy(db, pid, uid, now))
    ensures pid in db.posts && rid in db.replies ==>
      SelectBestWith({}, db, pid, rid) == Returned(SelectBest(db, pid, rid))
  {
  }

  /** Whatever the visibilities, an entry point that does not return leaves the store as it
    * was, and one that returns a failure does too: the transactions are all-or-nothing. */
  lemma FailuresChangeNothing(priv: set<Service>, db: Db, pid: Id, rid: Id, uid: Id,
                               content: Option<string>, category: Option<string>,
                               draw: NicknameGenerator.Draw, now: int)
    requires NicknameGenerator.ValidDraw(draw) && pid in db.posts && rid in db.replies
    ensures var o := CreatePostWith(priv, db, uid, content, category, draw, now);
      (!o.Returned? || o.step.result.Failure?) ==> StoreAfter(db, o) == db
    ensures var o := CreateReplyWith(priv, db, pid, uid, content, now);
      (!o.Returned? || o.step.result.Failure?) ==> StoreAfter(db, o) == db
    ensures var o := GiveSympathyWith(priv, db, pid, uid, now);
      (!o.Returned? || o.step.result.Failure?) ==> StoreAfter(db, o) == db
    ensures var o := SelectBestWith(priv, db, pid, rid);
      (!o.Returned? || o.step.result.Failure?) ==> StoreAfter(db, o) == db
  {
  }
}
