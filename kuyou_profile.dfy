/**
 * The prototype client's profile screen: the stored user, the histories they posted, the level
 * their points reach, and their achievements split into unlocked and locked. The level is a
 * table of five point thresholds; the screen's computed properties apply the functions below
 * to the screen's user.
 */
module KuyouProfile {
  import opened KuyouModels
  import opened KuyouStorage
  import Ordering

  /** The points at which the next level starts, lowest first. */
  const Thresholds: seq<int> := [100, 500, 1000, 5000, 10000]

  /** The level titles, one below the first threshold and one above each. */
  const Titles: seq<string> := ["初心者", "見習い", "供養師", "供養師匠", "大供養師", "供養大師"]

  /** `levelTitle`: the switch over the user's points. Points below zero match no range and
    * take the default, the top title. */
  function LevelTitle(points: int): (t: string)
    ensures t in Titles
    ensures points < 0 || points >= 10000 <==> t == Titles[5]
  {
    if 0 <= points < 100 then "初心者"
    else if 100 <= points < 500 then "見習い"
    else if 500 <= points < 1000 then "供養師"
    else if 1000 <= points < 5000 then "供養師匠"
    else if 5000 <= points < 10000 then "大供養師"
    else "供養大師"
  }

  /** `nextLevelPoints`: the threshold after the user's points, or five thousand more once past
    * the last one (and, through the default, for points below zero). */
  function NextLevelPoints(points: int): (n: int)
    ensures points >= 0 ==> n > points
    ensures points < 0 || points >= 10000 ==> n == points + 5000
    ensures 0 <= points < 10000 ==> n in Thresholds && forall t | t in Thresholds && points < t :: n <= t
  {
    if 0 <= points < 100 then 100
    else if 100 <= points < 500 then 500
    else if 500 <= points < 1000 then 1000
    else if 1000 <= points < 5000 then 5000
    else if 5000 <= points < 10000 then 10000
    else points + 5000
  }

  /** The start of the current level in `levelProgress`: the threshold below the points, zero
    * below the first, and the last threshold for the default. */
  function LevelStart(points: int): (s: int)
    ensures s == 0 || s in Thresholds
    ensures 0 <= points < 10000 ==> s <= points < NextLevelPoints(points)
  {
    if 0 <= points < 100 then 0
    else if 100 <= points < 500 then 100
    else if 500 <= points < 1000 then 500
    else if 1000 <= points < 5000 then 1000
    else if 5000 <= points < 10000 then 5000
    else 10000
  }

  /** `levelProgress`, in exact arithmetic: the share of the current level already covered,
    * clamped to the unit interval. The divisor is never zero. */
  function LevelProgress(points: int): (r: real)
    ensures 0.0 <= r <= 1.0
    ensures 0 <= points < 10000 ==>
      r == (points - LevelStart(points)) as real / (NextLevelPoints(points) - LevelStart(points)) as real
  {
    var span := NextLevelPoints(points) - LevelStart(points);
    assert span != 0;
    var progress := (points - LevelStart(points)) as real / span as real;
    if progress < 0.0 then 0.0 else if progress > 1.0 then 1.0 else progress
  }

  /** The reference level of a point total: how many thresholds it has reached, and the top
    * level for a negative total, as the switch's default gives it. */
  function Band(points: int): (b: nat)
    ensures b <= 5
  {
    if points < 0 then 5 else |Ordering.Filter(Thresholds, (t: int) => t <= points)|
  }

  /** A non-negative total lies between the threshold of its band and the next one. */
  lemma BandBounds(points: int)
    requires points >= 0
    ensures Band(points) == 0 || Thresholds[Band(points) - 1] <= points
    ensures Band(points) == 5 || points < Thresholds[Band(points)]
  {
    BandIsCount(points);
  }

  /** The band counts the thresholds in order: it is the first threshold above the points. */
  lemma BandIsCount(points: int)
    requires points >= 0
    ensures Band(points) == if points < 100 then 0 else if points < 500 then 1 else if points < 1000 then 2
                            else if points < 5000 then 3 else if points < 10000 then 4 else 5
  {
    var p := (t: int) => t <= points;
    var s := Thresholds;
    assert s[1..][1..][1..][1..][1..] == [];
    assert Ordering.Filter(s, p)
      == if p(100) then [100] + Ordering.Filter(s[1..], p) else Ordering.Filter(s[1..], p);
    assert Ordering.Filter(s[1..], p)
      == if p(500) then [500] + Ordering.Filter(s[1..][1..], p) else Ordering.Filter(s[1..][1..], p);
    assert Ordering.Filter(s[1..][1..], p)
      == if p(1000) then [1000] + Ordering.Filter(s[1..][1..][1..], p) else Ordering.Filter(s[1..][1..][1..], p);
    assert Ordering.Filter(s[1..][1..][1..], p)
      == if p(5000) then [5000] + Ordering.Filter(s[1..][1..][1..][1..], p)
         else Ordering.Filter(s[1..][1..][1..][1..], p);
    assert Ordering.Filter(s[1..][1..][1..][1..], p)
      == if p(10000) then [10000] else [];
  }

  /** The switches agree with the table: the title is the band's title, and the next level
    * is the band's upper threshold, or five thousand more from the top band. */
  lemma {:induction false} LevelsMatchTable(points: int)
    ensures LevelTitle(points) == Titles[Band(points)]
    ensures NextLevelPoints(points) == if Band(points) < 5 then Thresholds[Band(points)] else points + 5000
  {
    if points >= 0 {
      BandIsCount(points);
    }
  }

  /** More points never mean a lower level. */
  lemma {:induction false} BandMonotone(p: int, q: int)
    requires 0 <= p <= q
    ensures Band(p) <= Band(q)
  {
    BandIsCount(p);
    BandIsCount(q);
  }

  /** `unlockedAchievements`: every achievement the user holds, in declaration order. */
  function Unlocked(u: UserModel): (r: seq<Achievement>)
    ensures forall a :: a in r <==> a in u.achievements
    ensures Ordering.Distinct(r)
  {
    var r := Ordering.Filter(AllAchievements, (a: Achievement) => a in u.achievements);
    AllAchievementsComplete(FirstPost);
    Ordering.FilterDistinct(AllAchievements, (a: Achievement) => a in u.achievements);
    assert forall a :: a in r <==> a in u.achievements by {
      forall a ensures a in r <==> a in u.achievements {
        Ordering.FilterMultiset(AllAchievements, (a: Achievement) => a in u.achievements, a);
        AllAchievementsComplete(a);
      }
    }
    r
  }

  /** `lockedAchievements`: every achievement the user lacks, in declaration order. */
  function Locked(u: UserModel): (r: seq<Achievement>)
    ensures forall a :: a in r <==> a !in u.achievements
    ensures Ordering.Distinct(r)
  {
    var r := Ordering.Filter(AllAchievements, (a: Achievement) => a !in u.achievements);
    AllAchievementsComplete(FirstPost);
    Ordering.FilterDistinct(AllAchievements, (a: Achievement) => a !in u.achievements);
    assert forall a :: a in r <==> a !in u.achievements by {
      forall a ensures a in r <==> a !in u.achievements {
        Ordering.FilterMultiset(AllAchievements, (a: Achievement) => a !in u.achievements, a);
        AllAchievementsComplete(a);
      }
    }
    r
  }

  /** The two lists split the nine achievements: each appears in exactly one of them. */
  lemma AchievementsPartition(u: UserModel)
    ensures multiset(Unlocked(u)) + multiset(Locked(u)) == multiset(AllAchievements)
    ensures |Unlocked(u)| + |Locked(u)| == |AllAchievements|
  {
    Ordering.FilterComplement(AllAchievements, (a: Achievement) => a in u.achievements,
                              (a: Achievement) => a !in u.achievements);
  }

  /** The filter in `loadMyHistories()`: the stored histories whose id the user posted, in
    * stored order. */
  function MyHistories(all: seq<BlackHistory>, u: UserModel): (r: seq<BlackHistory>)
    ensures forall h :: h in r <==> h in all && h.id in u.postedHistories
    ensures forall h :: multiset(r)[h] <= multiset(all)[h]
  {
    var r := Ordering.Filter(all, (h: BlackHistory) => h.id in u.postedHistories);
    assert forall h :: (h in r <==> h in all && h.id in u.postedHistories) && multiset(r)[h] <= multiset(all)[h] by {
      forall h ensures (h in r <==> h in all && h.id in u.postedHistories) && multiset(r)[h] <= multiset(all)[h] {
        Ordering.FilterMultiset(all, (h: BlackHistory) => h.id in u.postedHistories, h);
      }
    }
    r
  }

  /** A history the user has just posted shows among their histories, and the ones shown
    * before still show. */
  lemma PostedShows(all: seq<BlackHistory>, u: UserModel, h: BlackHistory)
    requires h in all
    ensures var v := u.(postedHistories := u.postedHistories + [h.id]);
      h in MyHistories(all, v) && forall g :: g in MyHistories(all, u) ==> g in MyHistories(all, v)
  {
    var v := u.(postedHistories := u.postedHistories + [h.id]);
    assert h.id in v.postedHistories;
    assert forall id :: id in u.postedHistories ==> id in v.postedHistories;
  }

  class ProfileViewModel {
    var user: UserModel
    var myHistories: seq<BlackHistory>
    var isLoading: bool
    const storage: Storage

    /** `init()`: the stored user (or a new one) and their histories. */
    constructor(storage: Storage, freshId: Uuid, now: int)
      ensures this.storage == storage && user == storage.LoadUser(freshId, now)
      ensures myHistories == MyHistories(storage.histories, user) && !isLoading
    {
      this.storage := storage;
      user := storage.LoadUser(freshId, now);
      myHistories := [];
      isLoading := false;
      new;
      LoadMyHistories();
    }

    /** `loadMyHistories()`: the histories of the screen's user, from the store. */
    method LoadMyHistories()
      modifies this
      ensures myHistories == MyHistories(storage.histories, user) && !isLoading
      ensures user == old(user)
    {
      isLoading := true;
      var allHistories := storage.histories;
      myHistories := MyHistories(allHistories, user);
      isLoading := false;
    }

    /** `refresh()`: the user is read again, then their histories. */
    method Refresh(freshId: Uuid, now: int)
      modifies this
      ensures user == storage.LoadUser(freshId, now)
      ensures myHistories == MyHistories(storage.histories, user) && !isLoading
    {
      user := storage.LoadUser(freshId, now);
      LoadMyHistories();
    }
  }
}
