/**
 * Points, experience and levels, badges awarded once, the achievement
 * list, and the leaderboard. `now` (milliseconds) stands for the clock
 * read when a badge is earned.
 */
module Gamification {
  import opened Options
  import opened Seqs

  datatype Badge = Badge(
    id: string,
    name: string,
    description: string,
    icon: string,
    earned: bool,
    earnedDate: Option<int>)

  datatype Achievement = Achievement(
    id: string,
    name: string,
    description: string,
    progress: int,
    target: int,
    completed: bool)

  datatype Game = Game(
    points: int,
    level: int,
    experience: int,
    experienceToNext: int,
    badges: seq<Badge>,
    achievements: seq<Achievement>)

  /** Experience needed to leave level 1. */
  const FirstThreshold: int := 100
  /** Points awarded with every newly earned badge. */
  const BadgeBonus: int := 100

  const InitialBadges: seq<Badge> := [
    Badge("first-session", "First Steps", "Complete your first spelling session", "\U{1F3AF}", false, None),
    Badge("perfect-score", "Perfectionist", "Get 100% accuracy in a session", "\U{2B50}", false, None),
    Badge("streak-master", "Streak Master", "Maintain a 7-day learning streak", "\U{1F525}", false, None),
    Badge("word-collector", "Word Collector", "Master 100 words", "\U{1F4DA}", false, None),
    Badge("speed-demon", "Speed Demon", "Complete 50 words in under 5 minutes", "\U{26A1}", false, None),
    Badge("consistent-learner", "Consistent Learner", "Practice for 30 consecutive days", "\U{1F4C5}", false, None),
    Badge("perfect-verse", "Scripture Master", "Type a Bible verse with 100% accuracy", "\U{1F4D6}", false, None)
  ]

  const InitialAchievements: seq<Achievement> := [
    Achievement("words-mastered", "Word Master", "Master 500 words", 0, 500, false),
    Achievement("accuracy-champion", "Accuracy Champion", "Maintain 90%+ accuracy for 10 sessions", 0, 10, false),
    Achievement("time-warrior", "Time Warrior", "Spend 50 hours learning", 0, 50, false)
  ]

  /** The store's state when it is first created. */
  const Initial: Game := Game(0, 1, 0, FirstThreshold, InitialBadges, InitialAchievements)

  /** `Math.floor(t * 1.2)`, computed exactly. */
  function NextThreshold(t: int): (r: int)
    ensures 5 * r <= 6 * t < 5 * r + 5
    ensures t >= 0 ==> r >= t
  {
    (6 * t) / 5
  }

  /** The threshold in force at a level reached from the initial state. */
  function ThresholdAt(level: nat): int {
    if level <= 1 then FirstThreshold else NextThreshold(ThresholdAt(level - 1))
  }

  /** The experience spent on level-ups to get from level 1 to `level`. */
  function SpentBefore(level: nat): int {
    if level <= 1 then 0 else SpentBefore(level - 1) + ThresholdAt(level - 1)
  }

  /**
   * The ledger: every point ever awarded is either spent on a past level-up
   * or still held as experience, and the threshold is the one for the
   * current level.
   */
  predicate Consistent(g: Game) {
    && g.level >= 1
    && g.experienceToNext == ThresholdAt(g.level)
    && g.points == SpentBefore(g.level) + g.experience
  }

  /** Thresholds never fall below 100 and never decrease from level to level. */
  lemma {:induction false} ThresholdsGrow(level: nat)
    requires level >= 1
    ensures ThresholdAt(level) >= FirstThreshold
    ensures ThresholdAt(level + 1) >= ThresholdAt(level)
  {
    if level > 1 {
      ThresholdsGrow(level - 1);
    }
  }

  /**
   * `addPoints`: points and experience rise by `amount`; when experience
   * reaches the threshold, exactly one level-up happens, consuming the old
   * threshold and raising the next one by a fifth (rounded down).
   */
  function AddPoints(g: Game, amount: int): (r: Game)
    ensures r.points == g.points + amount
    ensures r.badges == g.badges && r.achievements == g.achievements
    ensures g.experience + amount >= g.experienceToNext ==>
      && r.level == g.level + 1
      && r.experience == g.experience + amount - g.experienceToNext
      && 5 * r.experienceToNext <= 6 * g.experienceToNext < 5 * r.experienceToNext + 5
    ensures g.experience + amount < g.experienceToNext ==>
      && r.level == g.level
      && r.experience == g.experience + amount
      && r.experienceToNext == g.experienceToNext
    ensures Consistent(g) ==> Consistent(r)
  {
    var p := g.points + amount;
    var e := g.experience + amount;
    if e >= g.experienceToNext then
      g.(points := p, level := g.level + 1, experience := e - g.experienceToNext,
         experienceToNext := NextThreshold(g.experienceToNext))
    else
      g.(points := p, experience := e)
  }

  function BadgeWithId(id: string): Badge -> bool {
    (b: Badge) => b.id == id
  }

  function Earned(): Badge -> bool {
    (b: Badge) => b.earned
  }

  function NotEarned(): Badge -> bool {
    (b: Badge) => !b.earned
  }

  /** `earnBadge` has an effect: the first badge with this id exists and is not yet earned. */
  ghost predicate Awards(badges: seq<Badge>, badgeId: string) {
    exists i :: IsFirst(badges, i, BadgeWithId(badgeId)) && !badges[i].earned
  }

  /**
   * `earnBadge`: marks the first badge with the id as earned at `now` and
   * awards the bonus; an earned or unknown badge changes nothing.
   */
  function EarnBadge(g: Game, badgeId: string, now: int): (r: Game)
    ensures |r.badges| == |g.badges|
    ensures !Awards(g.badges, badgeId) ==> r == g
    ensures Awards(g.badges, badgeId) ==> r.points == g.points + BadgeBonus
    ensures forall i :: IsFirst(g.badges, i, BadgeWithId(badgeId)) ==>
      r.badges[i].earned && (!g.badges[i].earned ==> r.badges[i].earnedDate == Some(now))
    ensures forall i :: IsFirst(g.badges, i, BadgeWithId(badgeId)) && !g.badges[i].earned ==>
      && r.badges[i] == g.badges[i].(earned := true, earnedDate := Some(now))
      && r.(badges := g.badges) == AddPoints(g, BadgeBonus)
    ensures forall j :: 0 <= j < |g.badges| ==>
      r.badges[j].id == g.badges[j].id &&
      (!IsFirst(g.badges, j, BadgeWithId(badgeId)) ==> r.badges[j] == g.badges[j])
    ensures Consistent(g) ==> Consistent(r)
  {
    match FirstIndex(g.badges, BadgeWithId(badgeId))
    case None => g
    case Some(i) =>
      if g.badges[i].earned then g
      else
        var b := g.badges[i].(earned := true, earnedDate := Some(now));
        AddPoints(g.(badges := g.badges[i := b]), BadgeBonus)
  }

  /** Earning a badge twice is the same as earning it once. */
  lemma EarnBadgeIdempotent(g: Game, badgeId: string, t1: int, t2: int)
    ensures EarnBadge(EarnBadge(g, badgeId, t1), badgeId, t2) == EarnBadge(g, badgeId, t1)
  {
    var r := EarnBadge(g, badgeId, t1);
    FirstIndexSameMatches(g.badges, r.badges, BadgeWithId(badgeId));
  }

  /** An awarded badge moves exactly one badge into the earned list. */
  lemma EarnBadgeCountsOne(g: Game, badgeId: string, now: int)
    requires Awards(g.badges, badgeId)
    ensures |EarnedBadges(EarnBadge(g, badgeId, now))| == |EarnedBadges(g)| + 1
  {
    var i :| IsFirst(g.badges, i, BadgeWithId(badgeId)) && !g.badges[i].earned;
    var b := g.badges[i].(earned := true, earnedDate := Some(now));
    FilterCountUpdate(g.badges, i, b, Earned());
  }

  /** `earnedBadges`. */
  function EarnedBadges(g: Game): (r: seq<Badge>)
    ensures forall i :: 0 <= i < |r| ==> r[i] in g.badges && r[i].earned
    ensures forall i :: 0 <= i < |g.badges| && g.badges[i].earned ==> g.badges[i] in r
  {
    Filter(g.badges, Earned())
  }

  /** `availableBadges`. */
  function AvailableBadges(g: Game): (r: seq<Badge>)
    ensures forall i :: 0 <= i < |r| ==> r[i] in g.badges && !r[i].earned
    ensures forall i :: 0 <= i < |g.badges| && !g.badges[i].earned ==> g.badges[i] in r
  {
    Filter(g.badges, NotEarned())
  }

  /** Both badge lists keep the badges' order: each distributes over concatenation. */
  lemma BadgeListsKeepOrder(g: Game, a: seq<Badge>, b: seq<Badge>)
    ensures EarnedBadges(g.(badges := a + b)) == EarnedBadges(g.(badges := a)) + EarnedBadges(g.(badges := b))
    ensures AvailableBadges(g.(badges := a + b)) == AvailableBadges(g.(badges := a)) + AvailableBadges(g.(badges := b))
  {
    FilterAppend(a, b, Earned());
    FilterAppend(a, b, NotEarned());
  }

  /** Earned and available badges partition the badge list. */
  lemma BadgesPartition(g: Game)
    ensures |EarnedBadges(g)| + |AvailableBadges(g)| == |g.badges|
    ensures multiset(EarnedBadges(g)) + multiset(AvailableBadges(g)) == multiset(g.badges)
    ensures forall b :: b in g.badges ==> (b in EarnedBadges(g) <==> b !in AvailableBadges(g))
  {
    FilterSplit(g.badges, Earned(), NotEarned());
  }

  /**
   * `resetAchievements`: every badge unearned with no date, every
   * achievement back to progress 0 and not completed; identities, texts
   * and targets kept; points and levels untouched.
   */
  function ResetAchievements(g: Game): (r: Game)
    ensures r.points == g.points && r.level == g.level
    ensures r.experience == g.experience && r.experienceToNext == g.experienceToNext
    ensures |r.badges| == |g.badges|
    ensures forall i :: 0 <= i < |g.badges| ==>
      r.badges[i] == g.badges[i].(earned := false, earnedDate := None)
    ensures |r.achievements| == |g.achievements|
    ensures forall i :: 0 <= i < |g.achievements| ==>
      r.achievements[i] == g.achievements[i].(progress := 0, completed := false)
  {
    g.(badges := seq(|g.badges|, i requires 0 <= i < |g.badges| =>
                       g.badges[i].(earned := false, earnedDate := None)),
       achievements := seq(|g.achievements|, i requires 0 <= i < |g.achievements| =>
                       g.achievements[i].(progress := 0, completed := false)))
  }

  /** After a reset no badge is earned and every badge is available again. */
  lemma ResetAchievementsClearsBadges(g: Game)
    ensures EarnedBadges(ResetAchievements(g)) == []
    ensures AvailableBadges(ResetAchievements(g)) == ResetAchievements(g).badges
  {
    var b := ResetAchievements(g).badges;
    assert forall i :: 0 <= i < |b| ==> !b[i].earned;
    FilterKeepsAll(b, NotEarned());
    FilterDropsAll(b, Earned());
  }

  /** Resetting achievements twice is resetting them once. */
  lemma ResetAchievementsIdempotent(g: Game)
    ensures ResetAchievements(ResetAchievements(g)) == ResetAchievements(g)
  {
    var r := ResetAchievements(g);
    var rr := ResetAchievements(r);
    forall i | 0 <= i < |r.badges|
      ensures rr.badges[i] == r.badges[i]
    {
    }
    forall i | 0 <= i < |r.achievements|
      ensures rr.achievements[i] == r.achievements[i]
    {
    }
    assert rr.badges == r.badges;
    assert rr.achievements == r.achievements;
  }

  /** `resetGamification`: back to the initial points, level and threshold; badges untouched. */
  function ResetGamification(g: Game): (r: Game)
    ensures Consistent(r)
    ensures r.points == 0 && r.level == 1 && r.experience == 0
    ensures r.badges == g.badges && r.achievements == g.achievements
  {
    g.(points := 0, level := 1, experience := 0, experienceToNext := FirstThreshold)
  }

  /** The operations that change the store. */
  datatype Op =
    | Points(amount: int)
    | EarnOne(badgeId: string, at: int)
    | ClearAchievements
    | ClearProgress

  function Apply(g: Game, op: Op): Game {
    match op
    case Points(a) => AddPoints(g, a)
    case EarnOne(id, t) => EarnBadge(g, id, t)
    case ClearAchievements => ResetAchievements(g)
    case ClearProgress => ResetGamification(g)
  }

  function Run(g: Game, ops: seq<Op>): Game
    decreases |ops|
  {
    if |ops| == 0 then g else Run(Apply(g, ops[0]), ops[1..])
  }

  /** From the initial state, every run of operations keeps the ledger balanced. */
  lemma {:induction false} RunKeepsLedger(g: Game, ops: seq<Op>)
    requires Consistent(g)
    ensures Consistent(Run(g, ops))
    decreases |ops|
  {
    if |ops| > 0 {
      RunKeepsLedger(Apply(g, ops[0]), ops[1..]);
    }
  }

  lemma InitialConsistent()
    ensures Consistent(Initial)
  {
  }

  datatype Entry = Entry(name: string, points: int, level: int)

  /** The fixed rows shown next to the player. */
  const MockEntries: seq<Entry> := [Entry("Alice", 1450, 6), Entry("Bob", 980, 4), Entry("Charlie", 1120, 5)]

  function You(g: Game): Entry {
    Entry("You", g.points, g.level)
  }

  predicate SortedByPoints(s: seq<Entry>) {
    forall i, j :: 0 <= i < j < |s| ==> s[i].points >= s[j].points
  }

  function AtMost(points: int): Entry -> bool {
    (e: Entry) => e.points <= points
  }

  /**
   * Where `e` goes in a list sorted by decreasing points so that it follows
   * every strictly higher entry and precedes every entry with as many
   * points or fewer.
   */
  function InsertPosition(e: Entry, t: seq<Entry>): (k: nat)
    ensures k <= |t|
    ensures forall j :: 0 <= j < k ==> t[j].points > e.points
    ensures k < |t| ==> t[k].points <= e.points
  {
    match FirstIndex(t, AtMost(e.points))
    case Some(k) => k
    case None => |t|
  }

  function Insert(e: Entry, t: seq<Entry>): (r: seq<Entry>)
    requires SortedByPoints(t)
    ensures SortedByPoints(r)
    ensures multiset(r) == multiset(t) + multiset{e}
  {
    var k := InsertPosition(e, t);
    assert t == t[..k] + t[k..];
    InsertKeepsSorted(e, t, k);
    t[..k] + [e] + t[k..]
  }

  /** Placing `e` after the strictly higher entries and before the rest keeps the order. */
  lemma InsertKeepsSorted(e: Entry, t: seq<Entry>, k: nat)
    requires SortedByPoints(t)
    requires k <= |t|
    requires forall j :: 0 <= j < k ==> t[j].points > e.points
    requires k < |t| ==> t[k].points <= e.points
    ensures SortedByPoints(t[..k] + [e] + t[k..])
  {
    var r := t[..k] + [e] + t[k..];
    assert forall x :: 0 <= x < k ==> r[x] == t[x];
    assert r[k] == e;
    assert forall x :: k < x < |r| ==> r[x] == t[x - 1];
  }

  /**
   * A stable sort by decreasing points (the comparator `b.points -
   * a.points`): each element is placed before the later ones it ties with.
   */
  function SortByPoints(s: seq<Entry>): (r: seq<Entry>)
    ensures SortedByPoints(r)
    ensures multiset(r) == multiset(s)
    decreases |s|
  {
    if |s| == 0 then []
    else
      assert s == [s[0]] + s[1..];
      Insert(s[0], SortByPoints(s[1..]))
  }

  /**
   * `getLeaderboard`: the player's row among the fixed rows `others`, sorted
   * by points. The store always passes `MockEntries`.
   */
  function Leaderboard(g: Game, others: seq<Entry>): (r: seq<Entry>)
    ensures SortedByPoints(r)
    ensures multiset(r) == multiset([You(g)] + others)
    ensures You(g) in r
  {
    var r := SortByPoints([You(g)] + others);
    assert You(g) in multiset(r);
    r
  }

  /** The leaderboard holds the player's row and every fixed row, and nothing more. */
  lemma LeaderboardRows(g: Game, others: seq<Entry>)
    ensures |Leaderboard(g, others)| == |others| + 1
    ensures forall j :: 0 <= j < |others| ==> others[j] in Leaderboard(g, others)
  {
    var r := Leaderboard(g, others);
    assert |multiset(r)| == |multiset([You(g)] + others)|;
    forall j | 0 <= j < |others|
      ensures others[j] in r
    {
      assert ([You(g)] + others)[j + 1] == others[j];
      assert others[j] in multiset([You(g)] + others);
    }
  }

  /** The store's leaderboard: four rows, the player's and the three mock players'. */
  lemma StoreLeaderboard(g: Game)
    ensures |Leaderboard(g, MockEntries)| == 4
    ensures You(g) in Leaderboard(g, MockEntries)
    ensures Entry("Alice", 1450, 6) in Leaderboard(g, MockEntries)
    ensures Entry("Bob", 980, 4) in Leaderboard(g, MockEntries)
    ensures Entry("Charlie", 1120, 5) in Leaderboard(g, MockEntries)
  {
    LeaderboardRows(g, MockEntries);
    assert MockEntries[0] == Entry("Alice", 1450, 6);
    assert MockEntries[1] == Entry("Bob", 980, 4);
    assert MockEntries[2] == Entry("Charlie", 1120, 5);
  }

  /**
   * The player's row carries the current points and level; every row
   * above it has strictly more points and every row below it no more.
   */
  lemma YouRank(g: Game, others: seq<Entry>)
    ensures exists k ::
      && 0 <= k < |Leaderboard(g, others)|
      && Leaderboard(g, others)[k] == You(g)
      && (forall j :: 0 <= j < k ==> Leaderboard(g, others)[j].points > g.points)
      && (forall j :: k < j < |Leaderboard(g, others)| ==> Leaderboard(g, others)[j].points <= g.points)
  {
    var s := [You(g)] + others;
    assert s[0] == You(g) && s[1..] == others;
    var t := SortByPoints(others);
    var r := Leaderboard(g, others);
    assert r == Insert(You(g), t);
    InsertRank(You(g), t);
    var k := InsertPosition(You(g), t);
    assert 0 <= k < |r| && r[k] == You(g);
  }

  /** An inserted entry follows exactly the entries with strictly more points. */
  lemma InsertRank(e: Entry, t: seq<Entry>)
    requires SortedByPoints(t)
    ensures var k := InsertPosition(e, t);
      && k < |Insert(e, t)|
      && Insert(e, t)[k] == e
      && (forall j :: 0 <= j < k ==> Insert(e, t)[j].points > e.points)
      && (forall j :: k < j < |Insert(e, t)| ==> Insert(e, t)[j].points <= e.points)
  {
    var k := InsertPosition(e, t);
    var r := Insert(e, t);
    assert r == t[..k] + [e] + t[k..];
    assert r[k] == e;
    forall j | k < j < |r|
      ensures r[j].points <= e.points
    {
      assert r[j] == t[j - 1];
    }
  }
}
