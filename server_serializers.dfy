/**
 * The JSON attributes the server renders for a post, a reply and a user. A post payload carries the
 * pseudonym stored with the post and never its owner's id; a reply payload carries a
 * pseudonym built from the author's id. The viewer-dependent flags are nil when the request
 * has no current user, as `params[:current_user] && ...` is.
 */
module Serializers {
  import opened Wrappers
  import opened Text
  import opened ServerModels

  /** `PostSerializer`'s attributes; `updated_at` is not modelled. */
  datatype PostPayload = PostPayload(
    id: Id, nickname: string, content: string, category: string, status: Status,
    sympathyCount: int, createdAt: int,
    replyCount: nat, isResolved: bool, isMine: Option<bool>, hasSympathized: Option<bool>)

  /** `PostSerializer.new(post, params: { current_user: viewer })`. */
  function SerializePost(db: Db, pid: Id, viewer: Option<Id>): (p: PostPayload)
    requires pid in db.posts
    ensures var post := db.posts[pid];
      p.id == pid && p.nickname == post.nickname && p.content == post.content
      && p.category == post.category && p.status == post.status
      && p.sympathyCount == post.sympathyCount && p.createdAt == post.createdAt
    ensures p.replyCount == |ReplyIds(db.replies, pid)|
    ensures p.isResolved <==> db.posts[pid].status == Resolved
    ensures p.isMine.None? <==> viewer.None?
    ensures p.isMine == Some(true) <==> viewer == Some(db.posts[pid].userId)
    ensures p.hasSympathized.None? <==> viewer.None?
    ensures p.hasSympathized == Some(true) <==> viewer.Some? && HasSympathized(db, pid, viewer.value)
  {
    var post := db.posts[pid];
    PostPayload(pid, post.nickname, post.content, post.category, post.status,
                post.sympathyCount, post.createdAt,
                |ReplyIds(db.replies, pid)|, post.status == Resolved,
                if viewer.None? then None else Some(post.userId == viewer.value),
                if viewer.None? then None else Some(HasSympathized(db, pid, viewer.value)))
  }

  /** The payload does not reveal who owns the post: giving the post another owner changes
    * nothing a viewer who is neither owner can see. */
  lemma PostPayloadHidesOwner(db: Db, pid: Id, owner: Id, viewer: Option<Id>)
    requires pid in db.posts
    requires viewer.None? || (viewer.value != owner && viewer.value != db.posts[pid].userId)
    ensures var db' := db.(posts := db.posts[pid := db.posts[pid].(userId := owner)]);
      SerializePost(db', pid, viewer) == SerializePost(db, pid, viewer)
  {
    var db' := db.(posts := db.posts[pid := db.posts[pid].(userId := owner)]);
    assert db'.replies == db.replies && db'.sympathies == db.sympathies;
  }

  /** A resolved post shown from a store where every resolved post has a best reply (as every
    * valid store does) has at least one reply. */
  lemma {:induction false} ResolvedPayloadHasReplies(db: Db, pid: Id, viewer: Option<Id>)
    requires ResolvedHaveBest(db) && pid in db.posts
    requires SerializePost(db, pid, viewer).isResolved
    ensures SerializePost(db, pid, viewer).replyCount >= 1
  {
    var best := BestReplyIds(db.replies, pid);
    assert best != {};
    var k :| k in best;
    assert k in ReplyIds(db.replies, pid);
  }

  /** `ReplySerializer`'s attributes; `updated_at` is not modelled. */
  datatype ReplyPayload = ReplyPayload(
    id: Id, content: string, isBest: bool, createdAt: int, userNickname: string, isMine: Option<bool>)

  /** The pseudonym prefix "智者#" ("sage #"). */
  const SagePrefix: string := "智者#"

  /** `"智者##{user_id.to_s.rjust(4, '0')}"`: the prefix, then the author's id in decimal,
    * zero-padded to at least four digits. */
  function ReplyNickname(uid: Id): (r: string)
    ensures |r| >= 7 && r[..3] == SagePrefix
    ensures AllDigits(r[3..]) && DecimalValue(r[3..]) == uid
  {
    var d := ZeroPad(uid, 4);
    assert (SagePrefix + d)[3..] == d;
    SagePrefix + d
  }

  /** Ids below 10000 give exactly four digits; longer ids are kept whole, never cut to four. */
  lemma ReplyNicknameLength(uid: Id)
    ensures uid < 10000 ==> |ReplyNickname(uid)| == 7
    ensures uid >= 10000 ==> |ReplyNickname(uid)| >= 8
  {
    var d := ReplyNickname(uid)[3..];
    if uid < 10000 {
      assert Pow10(4) == 10000;
      DigitsLength(uid, 4);
    } else if |d| <= 4 {
      DigitBound(d);
    }
  }

  /** A digit string is worth less than ten to the power of its length. */
  lemma {:induction false} DigitBound(s: string)
    requires AllDigits(s)
    ensures DecimalValue(s) < Pow10(|s|)
    ensures |s| <= 4 ==> DecimalValue(s) < 10000
  {
    if s != [] {
      DigitBound(s[..|s| - 1]);
    }
    if |s| <= 4 {
      PowMono(|s|, 4);
      assert Pow10(4) == 10000;
    }
  }

  lemma {:induction false} PowMono(j: nat, k: nat)
    requires j <= k
    ensures Pow10(j) <= Pow10(k)
  {
    if j < k {
      PowMono(j, k - 1);
    }
  }

  /** The pseudonym determines the author: two replies show the same name only when they have
    * the same author, so the name exposes the user id the payload leaves out. */
  lemma ReplyNicknameInjective(a: Id, b: Id)
    requires ReplyNickname(a) == ReplyNickname(b)
    ensures a == b
  {
    assert ReplyNickname(a)[3..] == ReplyNickname(b)[3..];
  }

  /** `ReplySerializer.new(reply, params: { current_user: viewer })`. */
  function SerializeReply(db: Db, rid: Id, viewer: Option<Id>): (p: ReplyPayload)
    requires rid in db.replies
    ensures var reply := db.replies[rid];
      p.id == rid && p.content == reply.content && p.isBest == reply.isBest
      && p.createdAt == reply.createdAt && p.userNickname == ReplyNickname(reply.userId)
    ensures p.isMine.None? <==> viewer.None?
    ensures p.isMine == Some(true) <==> viewer == Some(db.replies[rid].userId)
  {
    var reply := db.replies[rid];
    ReplyPayload(rid, reply.content, reply.isBest, reply.createdAt, ReplyNickname(reply.userId),
                 if viewer.None? then None else Some(reply.userId == viewer.value))
  }

  /** `UserSerializer`'s attributes; users carry no `created_at` in this model. */
  datatype UserPayload = UserPayload(id: Id, email: string, nickname: Option<string>, totalPoints: int)

  /** `UserSerializer.new(user)`: the stored row under its id, email included. */
  function SerializeUser(db: Db, uid: Id): (p: UserPayload)
    requires uid in db.users
    ensures p.id == uid
    ensures p.email == db.users[uid].email && p.nickname == db.users[uid].nickname
    ensures p.totalPoints == db.users[uid].totalPoints
  {
    UserPayload(uid, db.users[uid].email, db.users[uid].nickname, db.users[uid].totalPoints)
  }
}
