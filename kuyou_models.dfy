/**
 * The prototype client's records: a confessed "black history", a rewrite proposed for it, and
 * the single local user with points and achievements. The user is a value type whose
 * `addPoints` and `checkAchievements` update a copy field by field; `UUID()` and `Date()` are
 * given as parameters here.
 */
module KuyouModels {
  import opened Wrappers
  import Ordering

  /** A UUID; fresh ones are supplied by the caller. */
  type Uuid = nat

  datatype Category = Love | Chuunibyou | Sns | School | Family | Other

  datatype EmotionTag = MaxEmbarrassment | WantToRewind | RatherProud | HelpMe

  /** `EmotionTag.allCases`. */
  const AllEmotionTags: seq<EmotionTag> := [MaxEmbarrassment, WantToRewind, RatherProud, HelpMe]

  lemma AllEmotionTagsComplete(t: EmotionTag)
    ensures t in AllEmotionTags
    ensures Ordering.Distinct(AllEmotionTags)
  {
  }

  datatype RewriteRoute = Comedy | Touching | Philosophy

  datatype BlackHistory = BlackHistory(
    id: Uuid, content: string, category: Category, emotionTags: seq<EmotionTag>, createdAt: int,
    salvationCount: int, isResolved: bool, bestAnswerId: Option<Uuid>)

  /** `BlackHistoryModel(content:category:emotionTags:)` with the defaults: no salvations,
    * unresolved, no best answer. */
  function NewBlackHistory(id: Uuid, content: string, category: Category, tags: seq<EmotionTag>,
                           now: int): (h: BlackHistory)
    ensures h.id == id && h.content == content && h.category == category && h.emotionTags == tags
    ensures h.createdAt == now && h.salvationCount == 0 && !h.isResolved && h.bestAnswerId.None?
  {
    BlackHistory(id, content, category, tags, now, 0, false, None)
  }

  datatype Rewrite = Rewrite(
    id: Uuid, blackHistoryId: Uuid, content: string, route: RewriteRoute, createdAt: int,
    likeCount: int, isBestAnswer: bool)

  /** `RewriteModel(blackHistoryId:content:route:)` with no likes, not best. */
  function NewRewrite(id: Uuid, historyId: Uuid, content: string, route: RewriteRoute, now: int): (r: Rewrite)
    ensures r.id == id && r.blackHistoryId == historyId && r.content == content && r.route == route
    ensures r.createdAt == now && r.likeCount == 0 && !r.isBestAnswer
  {
    Rewrite(id, historyId, content, route, now, 0, false)
  }

  datatype Achievement =
    | FirstPost | TenSalvations | HundredSalvations | ThousandSalvations
    | FirstBestAnswer | TenBestAnswers | ComedyMaster | TouchingMaster | PhilosophyMaster

  /** `Achievement.allCases`, in declaration order. */
  const AllAchievements: seq<Achievement> :=
    [FirstPost, TenSalvations, HundredSalvations, ThousandSalvations,
     FirstBestAnswer, TenBestAnswers, ComedyMaster, TouchingMaster, PhilosophyMaster]

  lemma AllAchievementsComplete(a: Achievement)
    ensures a in AllAchievements
    ensures Ordering.Distinct(AllAchievements)
  {
  }

  /** `requiredPoints`: declared per achievement, consulted nowhere. */
  function RequiredPoints(a: Achievement): (p: nat)
    ensures a.ComedyMaster? || a.TouchingMaster? || a.PhilosophyMaster? ==> p == 500
  {
    match a
    case FirstPost => 0
    case TenSalvations => 10
    case HundredSalvations => 100
    case ThousandSalvations => 1000
    case FirstBestAnswer => 0
    case TenBestAnswers => 0
    case ComedyMaster => 500
    case TouchingMaster => 500
    case PhilosophyMaster => 500
  }

  datatype UserModel = UserModel(
    id: Uuid, totalPoints: int, postedHistories: seq<Uuid>, achievements: set<Achievement>,
    salvationGiven: int, bestAnswersReceived: int, lastActiveDate: int)

  /** `UserModel()`: a new user with nothing yet. */
  function DefaultUser(id: Uuid, now: int): (u: UserModel)
    ensures u.id == id && u.totalPoints == 0 && u.postedHistories == [] && u.achievements == {}
    ensures u.salvationGiven == 0 && u.bestAnswersReceived == 0
  {
    UserModel(id, 0, [], {}, 0, 0, now)
  }

  // The point values.
  const PostBlackHistory: int := 10
  const ReceiveSalvation: int := 1
  const GiveSalvation: int := 2
  const PostRewrite: int := 5
  const ReceiveLike: int := 1
  const ReceiveBestAnswer: int := 50

  /** The rule an achievement is granted by, stated for each achievement on its own; the three
    * masters have none. */
  predicate Qualifies(u: UserModel, a: Achievement) {
    match a
    case FirstPost => u.postedHistories != []
    case TenSalvations => u.salvationGiven >= 10
    case HundredSalvations => u.salvationGiven >= 100
    case ThousandSalvations => u.salvationGiven >= 1000
    case FirstBestAnswer => u.bestAnswersReceived >= 1
    case TenBestAnswers => u.bestAnswersReceived >= 10
    case ComedyMaster => false
    case TouchingMaster => false
    case PhilosophyMaster => false
  }

  /** The achievement `a` if the record qualifies for it, else nothing. */
  function Grant(u: UserModel, a: Achievement): set<Achievement> {
    if Qualifies(u, a) then {a} else {}
  }

  /** The achievements the user's record qualifies for, rule by rule. */
  function Earned(u: UserModel): (r: set<Achievement>)
    ensures forall a :: a in r <==> Qualifies(u, a)
  {
    Grant(u, FirstPost) + Grant(u, TenSalvations) + Grant(u, HundredSalvations)
    + Grant(u, ThousandSalvations) + Grant(u, FirstBestAnswer) + Grant(u, TenBestAnswers)
  }

  /** `checkAchievements`: each rule in turn inserts its achievement; nothing is removed and
    * no other field changes. */
  method CheckAchievements(u: UserModel) returns (v: UserModel)
    ensures v.achievements == u.achievements + Earned(u)
    ensures v == u.(achievements := v.achievements)
  {
    var achievements := u.achievements;
    if u.postedHistories != [] && FirstPost !in achievements {
      achievements := achievements + {FirstPost};
    }
    assert achievements == u.achievements + Grant(u, FirstPost);
    if u.salvationGiven >= 10 {
      achievements := achievements + {TenSalvations};
    }
    if u.salvationGiven >= 100 {
      achievements := achievements + {HundredSalvations};
    }
    if u.salvationGiven >= 1000 {
      achievements := achievements + {ThousandSalvations};
    }
    assert achievements == u.achievements + Grant(u, FirstPost) + Grant(u, TenSalvations)
      + Grant(u, HundredSalvations) + Grant(u, ThousandSalvations);
    if u.bestAnswersReceived >= 1 {
      achievements := achievements + {FirstBestAnswer};
    }
    if u.bestAnswersReceived >= 10 {
      achievements := achievements + {TenBestAnswers};
    }
    v := u.(achievements := achievements);
  }

  /** The record `addPoints(points)` leaves: `points` more points and every achievement the
    * record qualifies for, with the id, the counters and the date kept. */
  function Awarded(u: UserModel, points: int): UserModel {
    u.(totalPoints := u.totalPoints + points, achievements := u.achievements + Earned(u))
  }

  /** `addPoints`: the points rise by exactly `points`, then the achievements are checked. */
  method AddPoints(u: UserModel, points: int) returns (v: UserModel)
    ensures v.totalPoints == u.totalPoints + points
    ensures v.achievements == u.achievements + Earned(u)
    ensures v == u.(totalPoints := v.totalPoints, achievements := v.achievements)
    ensures v == Awarded(u, points)
  {
    var raised := u.(totalPoints := u.totalPoints + points);
    v := CheckAchievements(raised);
    EarnedIgnoresPoints(u, raised);
  }

  /** The rules never look at the points (nor at `requiredPoints`): two records that differ
    * only in points and achievements qualify for the same achievements. */
  lemma EarnedIgnoresPoints(u: UserModel, w: UserModel)
    requires w.postedHistories == u.postedHistories && w.salvationGiven == u.salvationGiven
    requires w.bestAnswersReceived == u.bestAnswersReceived
    ensures Earned(w) == Earned(u)
  {
  }

  /** The masters are never granted by the check, whatever the record. */
  lemma MastersNeverEarned(u: UserModel)
    ensures ComedyMaster !in Earned(u) && TouchingMaster !in Earned(u) && PhilosophyMaster !in Earned(u)
  {
  }

  /** A later record with at least as many posts, salvations and best answers qualifies for
    * every achievement the earlier one did; with the check only adding, an achievement once
    * held stays held. */
  lemma {:induction false} EarnedMonotone(u: UserModel, w: UserModel)
    requires |u.postedHistories| <= |w.postedHistories|
    requires u.salvationGiven <= w.salvationGiven && u.bestAnswersReceived <= w.bestAnswersReceived
    ensures Earned(u) <= Earned(w)
  {
    forall a | a in Earned(u) ensures a in Earned(w) {
      assert Qualifies(u, a);
      if a == FirstPost {
        assert |u.postedHistories| > 0;
      }
    }
  }

  /** Checking twice grants nothing more than checking once. */
  lemma CheckIdempotent(u: UserModel)
    ensures Earned(u.(achievements := u.achievements + Earned(u))) == Earned(u)
    ensures (u.achievements + Earned(u)) + Earned(u) == u.achievements + Earned(u)
  {
  }
}
