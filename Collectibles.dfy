/**
 * Badge awarding of src/collectibles.ts: a fixed list of badges, each with a
 * threshold rule over the learner's progress, the scheduler's review counters
 * and the game statistics; `CheckNewBadges` awards, in list order, every badge
 * not yet earned whose rule holds.
 */
module Collectibles {
  import opened Wrappers
  import opened Catalog
  import opened Common
  import SpacedRepetition

  /** What `checkNewBadges` reads of one topic's progress. */
  datatype TopicProgress = TopicProgress(wordsLearned: seq<string>)

  /** The profile progress the badge rules read: per-topic word lists and the day streak. */
  datatype ProfileProgress = ProfileProgress(topicProgress: map<string, TopicProgress>, streak: int)

  datatype GameStats = GameStats(
    memoryWins: int,
    bubbleWins: int,
    daysPlayed: int,
    maxWordsInSession: int,
    perfectQuizzes: int,
    topicsStarted: seq<string>)

  /** The `check` lambdas of the badge list, one constructor per shape of rule. */
  datatype Rule =
    | WordsLearnedAtLeast(n: int)
    | AllWordsIn(topicId: string)
    | StreakAtLeast(n: int)
    | PerfectQuizzesAtLeast(n: int)
    | MemoryWinsAtLeast(n: int)
    | BubbleWinsAtLeast(n: int)
    | ReviewSessionsAtLeast(n: int)
    | ReviewStreakAtLeast(n: int)
    | StartedEveryTopic
    | HalfOfAllWords
    | EveryWord
    | DaysPlayedAtLeast(n: int)
    | WordsInSessionAtLeast(n: int)

  datatype Badge = Badge(id: string, name: string, emoji: string, hint: string, rule: Rule)

  const BADGES: seq<Badge> := [
    Badge("first_words", "First Words", "🌟", "Complete your first lesson", WordsLearnedAtLeast(1)),
    Badge("animal_friend", "Animal Friend", "🐾", "Learn all animal words", AllWordsIn("animals")),
    Badge("color_master", "Color Master", "🎨", "Learn all color words", AllWordsIn("colors")),
    Badge("number_ninja", "Number Ninja", "🔢", "Learn all number words", AllWordsIn("numbers")),
    Badge("foodie", "Foodie", "🍕", "Learn all food words", AllWordsIn("food")),
    Badge("body_expert", "Body Expert", "🧍", "Learn all body words", AllWordsIn("body")),
    Badge("streak_star", "Streak Star", "🔥", "3-day streak", StreakAtLeast(3)),
    Badge("super_streak", "Super Streak", "⚡", "7-day streak", StreakAtLeast(7)),
    Badge("word_collector", "Word Collector", "📚", "Learn 25 words total", WordsLearnedAtLeast(25)),
    Badge("word_master", "Word Master", "📖", "Learn 50 words total", WordsLearnedAtLeast(50)),
    Badge("perfect_score", "Perfect Score", "💯", "Get 100% on a quiz", PerfectQuizzesAtLeast(1)),
    Badge("memory_champ", "Memory Champ", "🧩", "Win memory match game", MemoryWinsAtLeast(1)),
    Badge("bubble_popper", "Bubble Popper", "🫧", "Win bubble pop game", BubbleWinsAtLeast(1)),
    Badge("review_pro", "Review Pro", "🧠", "Complete 5 review sessions", ReviewSessionsAtLeast(5)),
    Badge("sharp_mind", "Sharp Mind", "🎯", "10 review words correct in a row", ReviewStreakAtLeast(10)),
    Badge("abc_master", "ABC Master", "🔤", "Learn all 26 letters", AllWordsIn("alphabet")),
    Badge("shape_finder", "Shape Finder", "🔷", "Learn all shapes", AllWordsIn("shapes")),
    Badge("math_wizard", "Math Wizard", "🧮", "Complete all math lessons", AllWordsIn("math")),
    Badge("explorer", "Explorer", "🗺️", "Start lessons in all topics", StartedEveryTopic),
    Badge("half_way", "Half Way", "🏃", "Learn 50% of all words", HalfOfAllWords),
    Badge("champion", "Champion", "🏆", "Learn ALL words", EveryWord),
    Badge("consistent", "Consistent", "📅", "Play 10 days total", DaysPlayedAtLeast(10)),
    Badge("speed_learner", "Speed Learner", "⚡", "Learn 10 words in one session", WordsInSessionAtLeast(10))
  ]

  // ----- Word totals -----

  /** Some topic of a non-empty progress map. */
  ghost function Pick(tp: map<string, TopicProgress>): (k: string)
    requires |tp| > 0
    ensures k in tp
  {
    var k :| k in tp; k
  }

  lemma RemoveOne(tp: map<string, TopicProgress>, k: string)
    requires k in tp
    ensures (tp - {k}).Keys == tp.Keys - {k} && |tp - {k}| == |tp| - 1
  {
    assert (tp - {k}).Keys == tp.Keys - {k};
  }

  /** The number of learned words summed over all topics, in no particular order. */
  ghost function TotalLearned(tp: map<string, TopicProgress>): nat
    decreases |tp|
  {
    if |tp| == 0 then 0
    else
      var k := Pick(tp);
      RemoveOne(tp, k);
      |tp[k].wordsLearned| + TotalLearned(tp - {k})
  }

  /** The sum does not depend on which topic is taken out first. */
  lemma {:induction false} TotalLearnedRemove(tp: map<string, TopicProgress>, k: string)
    requires k in tp
    ensures TotalLearned(tp) == |tp[k].wordsLearned| + TotalLearned(tp - {k})
    decreases |tp|
  {
    var k' := Pick(tp);
    if k' != k {
      RemoveOne(tp, k);
      RemoveOne(tp, k');
      TotalLearnedRemove(tp - {k'}, k);
      TotalLearnedRemove(tp - {k}, k');
      assert tp - {k'} - {k} == tp - {k} - {k'};
    }
  }

  /** `totalWordsLearned`: add up the length of every topic's word list. */
  method TotalWordsLearned(progress: ProfileProgress) returns (total: nat)
    ensures total == TotalLearned(progress.topicProgress)
  {
    total := 0;
    var rest := progress.topicProgress;
    while |rest| > 0
      invariant total + TotalLearned(rest) == TotalLearned(progress.topicProgress)
      decreases |rest|
    {
      var k :| k in rest;
      TotalLearnedRemove(rest, k);
      total := total + |rest[k].wordsLearned|;
      rest := rest - {k};
    }
  }

  /** `totalWordsAvailable`: the number of words in the catalog. */
  function TotalWordsAvailable(): (r: nat)
    ensures r == 57
  {
    CatalogSize();
    WordCount(TOPICS)
  }

  /**
   * `allWordsInTopic`: the topic is in the catalog, has a progress entry, and
   * its learned list is at least as long as the topic's word list.
   */
  function AllWordsInTopic(progress: ProfileProgress, topicId: string): (r: bool)
    ensures (forall i :: 0 <= i < |TOPICS| ==> TOPICS[i].id != topicId) ==> !r
    ensures topicId !in progress.topicProgress ==> !r
    ensures forall i :: 0 <= i < |TOPICS| && TOPICS[i].id == topicId && topicId in progress.topicProgress ==>
              (r <==> |progress.topicProgress[topicId].wordsLearned| >= |TOPICS[i].words|)
  {
    TopicIdsDistinct();
    match FindTopic(TOPICS, topicId)
    case None => false
    case Some(topic) =>
      if topicId !in progress.topicProgress then false
      else |progress.topicProgress[topicId].wordsLearned| >= |topic.words|
  }

  /** `allWordsInTopic` for the topic at catalog position `i`. */
  lemma AllWordsInCatalogTopic(progress: ProfileProgress, i: nat)
    requires i < |TOPICS|
    ensures AllWordsInTopic(progress, TOPICS[i].id) <==>
            TOPICS[i].id in progress.topicProgress &&
            |progress.topicProgress[TOPICS[i].id].wordsLearned| >= |TOPICS[i].words|
  {
  }

  /** The alphabet topic is not in the catalog, so it is never complete. */
  lemma AlphabetIncomplete(progress: ProfileProgress)
    ensures !AllWordsInTopic(progress, "alphabet")
  {
    CatalogIds();
  }

  /** Nor is the shapes topic. */
  lemma ShapesIncomplete(progress: ProfileProgress)
    ensures !AllWordsInTopic(progress, "shapes")
  {
    CatalogIds();
  }

  /** Nor is the math topic. */
  lemma MathIncomplete(progress: ProfileProgress)
    ensures !AllWordsInTopic(progress, "math")
  {
    CatalogIds();
  }

  // ----- Rules -----

  /**
   * Whether a rule holds, given the learned total (`learned`), the profile
   * progress, the two scheduler counters the rules read and the game stats.
   * `half_way` compares with the real half of the catalog (28.5), so it needs
   * 29 words.
   */
  function RuleHolds(rule: Rule, learned: nat, progress: ProfileProgress,
                     reviewSessionsCompleted: int, maxReviewCorrectStreak: int, stats: GameStats): (r: bool)
    ensures rule == StartedEveryTopic ==> (r <==> |stats.topicsStarted| >= 5)
    ensures rule == HalfOfAllWords ==> (r <==> learned >= 29)
    ensures rule == EveryWord ==> (r <==> learned >= 57)
    ensures rule.AllWordsIn? && r ==> rule.topicId in progress.topicProgress
  {
    CatalogIds();
    match rule
    case WordsLearnedAtLeast(n) => learned >= n
    case AllWordsIn(topicId) => AllWordsInTopic(progress, topicId)
    case StreakAtLeast(n) => progress.streak >= n
    case PerfectQuizzesAtLeast(n) => stats.perfectQuizzes >= n
    case MemoryWinsAtLeast(n) => stats.memoryWins >= n
    case BubbleWinsAtLeast(n) => stats.bubbleWins >= n
    case ReviewSessionsAtLeast(n) => reviewSessionsCompleted >= n
    case ReviewStreakAtLeast(n) => maxReviewCorrectStreak >= n
    case StartedEveryTopic => |stats.topicsStarted| >= |TOPICS|
    case HalfOfAllWords => 2 * learned >= TotalWordsAvailable()
    case EveryWord => learned >= TotalWordsAvailable()
    case DaysPlayedAtLeast(n) => stats.daysPlayed >= n
    case WordsInSessionAtLeast(n) => stats.maxWordsInSession >= n
  }

  /** `badge.check(progress, sr, stats)`. */
  ghost predicate Qualifies(b: Badge, progress: ProfileProgress, reviewSessionsCompleted: int,
                            maxReviewCorrectStreak: int, stats: GameStats)
  {
    RuleHolds(b.rule, TotalLearned(progress.topicProgress), progress,
              reviewSessionsCompleted, maxReviewCorrectStreak, stats)
  }

  /** `Qualifies` for one profile's state, as a predicate on badges. */
  ghost function Qualifying(progress: ProfileProgress, reviewSessionsCompleted: int,
                            maxReviewCorrectStreak: int, stats: GameStats): Badge -> bool
  {
    b => Qualifies(b, progress, reviewSessionsCompleted, maxReviewCorrectStreak, stats)
  }

  function Ids(badges: seq<Badge>): (r: seq<string>)
    ensures |r| == |badges| && forall i :: 0 <= i < |badges| ==> r[i] == badges[i].id
  {
    if |badges| == 0 then [] else Ids(badges[..|badges| - 1]) + [badges[|badges| - 1].id]
  }

  lemma IdsSnoc(badges: seq<Badge>, b: Badge)
    ensures Ids(badges + [b]) == Ids(badges) + [b.id]
  {
    assert (badges + [b])[..|badges|] == badges;
  }

  /**
   * The badges of `badges` that are not in `earned` and satisfy
   * `qualifies`, in list order: what `checkNewBadges` is expected to award.
   */
  ghost function Eligible(badges: seq<Badge>, earned: seq<string>, qualifies: Badge -> bool): seq<Badge>
  {
    if |badges| == 0 then []
    else
      var last := badges[|badges| - 1];
      Eligible(badges[..|badges| - 1], earned, qualifies)
      + (if last.id !in earned && qualifies(last) then [last] else [])
  }

  /** Badge ids are all different. */
  lemma BadgeIdsDistinct()
    ensures |BADGES| == 23
    ensures forall i, j :: 0 <= i < j < |BADGES| ==> BADGES[i].id != BADGES[j].id
  {
  }

  /** Catalog topic ids are all different. */
  lemma TopicIdsDistinct()
    ensures forall i, j :: 0 <= i < j < |TOPICS| ==> TOPICS[i].id != TOPICS[j].id
  {
  }

  /** A badge is eligible exactly when it is listed, not yet earned, and qualifies. */
  lemma {:induction false} EligibleMembers(badges: seq<Badge>, earned: seq<string>, qualifies: Badge -> bool, b: Badge)
    ensures b in Eligible(badges, earned, qualifies) <==> b in badges && b.id !in earned && qualifies(b)
  {
    if |badges| > 0 {
      var init := badges[..|badges| - 1];
      EligibleMembers(init, earned, qualifies, b);
      assert badges == init + [badges[|badges| - 1]];
    }
  }

  /** The ids of the eligible badges are not yet earned and are ids of listed badges. */
  lemma {:induction false} EligibleIdsFrom(badges: seq<Badge>, earned: seq<string>, qualifies: Badge -> bool)
    ensures forall id :: id in Ids(Eligible(badges, earned, qualifies)) ==> id !in earned && id in Ids(badges)
  {
    if |badges| > 0 {
      var init, last := badges[..|badges| - 1], badges[|badges| - 1];
      EligibleIdsFrom(init, earned, qualifies);
      IdsSnoc(init, last);
      assert badges == init + [last];
      if last.id !in earned && qualifies(last) {
        IdsSnoc(Eligible(init, earned, qualifies), last);
      }
    }
  }

  /** On a list with distinct ids, the eligible badges have distinct ids. */
  lemma {:induction false} EligibleIdsDistinct(badges: seq<Badge>, earned: seq<string>, qualifies: Badge -> bool)
    requires forall i, j :: 0 <= i < j < |badges| ==> badges[i].id != badges[j].id
    ensures NoDuplicates(Ids(Eligible(badges, earned, qualifies)))
  {
    if |badges| > 0 {
      var init, last := badges[..|badges| - 1], badges[|badges| - 1];
      var before := Eligible(init, earned, qualifies);
      EligibleIdsDistinct(init, earned, qualifies);
      EligibleIdsFrom(init, earned, qualifies);
      assert last.id !in Ids(init) by {
        forall k | 0 <= k < |init| ensures Ids(init)[k] != last.id {
          assert init[k] == badges[k];
        }
      }
      if last.id !in earned && qualifies(last) {
        IdsSnoc(before, last);
        assert last.id !in Ids(before);
      }
    }
  }

  /** Eligibility over one more badge of the list. */
  lemma EligibleNext(badges: seq<Badge>, i: nat, earned: seq<string>, qualifies: Badge -> bool)
    requires i < |badges|
    ensures Eligible(badges[..i + 1], earned, qualifies)
            == Eligible(badges[..i], earned, qualifies)
               + (if badges[i].id !in earned && qualifies(badges[i]) then [badges[i]] else [])
  {
    assert badges[..i + 1][..i] == badges[..i];
  }

  /** On a list with distinct ids, the next badge's id is not among those awarded so far. */
  lemma NextIdFresh(badges: seq<Badge>, i: nat, earned: seq<string>, qualifies: Badge -> bool)
    requires i < |badges|
    requires forall i, j :: 0 <= i < j < |badges| ==> badges[i].id != badges[j].id
    ensures badges[i].id !in Ids(Eligible(badges[..i], earned, qualifies))
  {
    var init := badges[..i];
    EligibleIdsFrom(init, earned, qualifies);
    forall k | 0 <= k < |init| ensures Ids(init)[k] != badges[i].id {
      assert init[k] == badges[k];
    }
  }

  /**
   * One step of the award loop: from a state where the loop invariant holds
   * for the first `i` badges, the next badge is added exactly when its id is
   * not in the earned list grown so far and it qualifies, and the invariant
   * then holds for the first `i + 1`.
   */
  lemma AwardStep(badges: seq<Badge>, i: nat, earned: seq<string>, qualifies: Badge -> bool,
                  newBadges: seq<Badge>, earnedAfter: seq<string>)
    requires i < |badges|
    requires forall i, j :: 0 <= i < j < |badges| ==> badges[i].id != badges[j].id
    requires newBadges == Eligible(badges[..i], earned, qualifies)
    requires earnedAfter == earned + Ids(newBadges)
    ensures var b := badges[i];
            var add := b.id !in earnedAfter && qualifies(b);
            var nb := if add then newBadges + [b] else newBadges;
            var ea := if add then earnedAfter + [b.id] else earnedAfter;
            && nb == Eligible(badges[..i + 1], earned, qualifies)
            && ea == earned + Ids(nb)
            && (NoDuplicates(earnedAfter) ==> NoDuplicates(ea))
  {
    var b := badges[i];
    EligibleNext(badges, i, earned, qualifies);
    NextIdFresh(badges, i, earned, qualifies);
    if b.id !in earnedAfter && qualifies(b) {
      IdsSnoc(newBadges, b);
      assert earnedAfter + [b.id] == earned + Ids(newBadges + [b]);
      if NoDuplicates(earnedAfter) {
        NoDuplicatesSnoc(earnedAfter, b.id);
      }
    }
  }

  /** `Eligible` depends only on the values of `qualifies`. */
  lemma {:induction false} EligibleSamePredicate(badges: seq<Badge>, earned: seq<string>,
                                                 f: Badge -> bool, g: Badge -> bool)
    requires forall b :: b in badges ==> f(b) == g(b)
    ensures Eligible(badges, earned, f) == Eligible(badges, earned, g)
  {
    if |badges| > 0 {
      var init := badges[..|badges| - 1];
      assert forall b :: b in init ==> b in badges;
      EligibleSamePredicate(init, earned, f, g);
    }
  }

  /**
   * The loop of `checkNewBadges` over a badge list with distinct ids: a
   * badge is awarded when its id is not in the growing earned list and
   * `holds` (its `check` applied to the current state) is true of it.
   */
  method AwardInOrder(badges: seq<Badge>, earned: seq<string>, holds: Badge -> bool)
    returns (newBadges: seq<Badge>, earnedAfter: seq<string>)
    requires forall i, j :: 0 <= i < j < |badges| ==> badges[i].id != badges[j].id
    ensures newBadges == Eligible(badges, earned, holds)
    ensures earnedAfter == earned + Ids(newBadges)
    ensures NoDuplicates(earned) ==> NoDuplicates(earnedAfter)
  {
    newBadges := [];
    earnedAfter := earned;
    for i := 0 to |badges|
      invariant newBadges == Eligible(badges[..i], earned, holds)
      invariant earnedAfter == earned + Ids(newBadges)
      invariant NoDuplicates(earned) ==> NoDuplicates(earnedAfter)
    {
      var badge := badges[i];
      AwardStep(badges, i, earned, holds, newBadges, earnedAfter);
      if badge.id !in earnedAfter && holds(badge) {
        earnedAfter := earnedAfter + [badge.id];
        newBadges := newBadges + [badge];
      }
    }
    assert badges[..|badges|] == badges;
  }

  /**
   * `checkNewBadges` with the stored earned list passed in: the badges
   * awarded, the earned list after the call, and whether it is saved.
   */
  method CheckNewBadges(earned: seq<string>, progress: ProfileProgress, sr: SpacedRepetition.SRData, stats: GameStats)
    returns (newBadges: seq<Badge>, earnedAfter: seq<string>, saved: bool)
    ensures newBadges == Eligible(BADGES, earned,
                                  Qualifying(progress, sr.reviewSessionsCompleted, sr.maxReviewCorrectStreak, stats))
    ensures earnedAfter == earned + Ids(newBadges)
    ensures NoDuplicates(earned) ==> NoDuplicates(earnedAfter)
    ensures saved <==> |newBadges| > 0
  {
    var total := TotalWordsLearned(progress);
    var rs, ms := sr.reviewSessionsCompleted, sr.maxReviewCorrectStreak;
    var holds := (b: Badge) => RuleHolds(b.rule, total, progress, rs, ms, stats);
    BadgeIdsDistinct();
    newBadges, earnedAfter := AwardInOrder(BADGES, earned, holds);
    EligibleSamePredicate(BADGES, earned, holds, Qualifying(progress, rs, ms, stats));
    saved := |newBadges| > 0;
  }

  /** Badges are awarded once: with the updated earned list nothing more qualifies. */
  lemma SecondCallAwardsNothing(badges: seq<Badge>, earned: seq<string>, qualifies: Badge -> bool)
    ensures var first := Eligible(badges, earned, qualifies);
            Eligible(badges, earned + Ids(first), qualifies) == []
  {
    var first := Eligible(badges, earned, qualifies);
    var second := Eligible(badges, earned + Ids(first), qualifies);
    if second != [] {
      var b := second[0];
      EligibleMembers(badges, earned + Ids(first), qualifies, b);
      EligibleMembers(badges, earned, qualifies, b);
      assert false;
    }
  }

  /** The badges for the letters, shapes and math topics need topics the catalog does not have. */
  lemma UnreachableTopicBadges(progress: ProfileProgress, learned: nat, rs: int, ms: int, stats: GameStats)
    ensures !RuleHolds(BADGES[15].rule, learned, progress, rs, ms, stats)
    ensures !RuleHolds(BADGES[16].rule, learned, progress, rs, ms, stats)
    ensures !RuleHolds(BADGES[17].rule, learned, progress, rs, ms, stats)
  {
    assert BADGES[15].rule == AllWordsIn("alphabet");
    assert BADGES[16].rule == AllWordsIn("shapes");
    assert BADGES[17].rule == AllWordsIn("math");
    AlphabetIncomplete(progress);
    ShapesIncomplete(progress);
    MathIncomplete(progress);
  }

  /** The word-count badges and the streak badges are nested. */
  lemma NestedThresholds(progress: ProfileProgress, learned: nat, rs: int, ms: int, stats: GameStats)
    ensures RuleHolds(BADGES[9].rule, learned, progress, rs, ms, stats) ==> RuleHolds(BADGES[8].rule, learned, progress, rs, ms, stats)
    ensures RuleHolds(BADGES[8].rule, learned, progress, rs, ms, stats) ==> RuleHolds(BADGES[0].rule, learned, progress, rs, ms, stats)
    ensures RuleHolds(BADGES[7].rule, learned, progress, rs, ms, stats) ==> RuleHolds(BADGES[6].rule, learned, progress, rs, ms, stats)
    ensures RuleHolds(BADGES[20].rule, learned, progress, rs, ms, stats) ==> RuleHolds(BADGES[19].rule, learned, progress, rs, ms, stats)
  {
    assert BADGES[0].rule == WordsLearnedAtLeast(1);
    assert BADGES[6].rule == StreakAtLeast(3);
    assert BADGES[7].rule == StreakAtLeast(7);
    assert BADGES[8].rule == WordsLearnedAtLeast(25);
    assert BADGES[9].rule == WordsLearnedAtLeast(50);
    assert BADGES[19].rule == HalfOfAllWords;
    assert BADGES[20].rule == EveryWord;
  }

  /** The word-count badges: at least 1, 25 and 50 learned words, half (28.5, so 29) and all 57 of the catalog. */
  lemma WordCountBadges(progress: ProfileProgress, learned: nat, rs: int, ms: int, stats: GameStats)
    ensures RuleHolds(BADGES[0].rule, learned, progress, rs, ms, stats) <==> learned >= 1
    ensures RuleHolds(BADGES[8].rule, learned, progress, rs, ms, stats) <==> learned >= 25
    ensures RuleHolds(BADGES[9].rule, learned, progress, rs, ms, stats) <==> learned >= 50
    ensures RuleHolds(BADGES[19].rule, learned, progress, rs, ms, stats) <==> learned >= 29
    ensures RuleHolds(BADGES[20].rule, learned, progress, rs, ms, stats) <==> learned >= 57
  {
    assert BADGES[0].rule == WordsLearnedAtLeast(1);
    assert BADGES[8].rule == WordsLearnedAtLeast(25);
    assert BADGES[9].rule == WordsLearnedAtLeast(50);
    assert BADGES[19].rule == HalfOfAllWords;
    assert BADGES[20].rule == EveryWord;
  }

  /** The day-streak badges: a streak of at least 3 and at least 7 days. */
  lemma StreakBadges(progress: ProfileProgress, learned: nat, rs: int, ms: int, stats: GameStats)
    ensures RuleHolds(BADGES[6].rule, learned, progress, rs, ms, stats) <==> progress.streak >= 3
    ensures RuleHolds(BADGES[7].rule, learned, progress, rs, ms, stats) <==> progress.streak >= 7
  {
    assert BADGES[6].rule == StreakAtLeast(3);
    assert BADGES[7].rule == StreakAtLeast(7);
  }

  /** The game badges: a perfect quiz, a memory win, a bubble win. */
  lemma GameBadges(progress: ProfileProgress, learned: nat, rs: int, ms: int, stats: GameStats)
    ensures RuleHolds(BADGES[10].rule, learned, progress, rs, ms, stats) <==> stats.perfectQuizzes >= 1
    ensures RuleHolds(BADGES[11].rule, learned, progress, rs, ms, stats) <==> stats.memoryWins >= 1
    ensures RuleHolds(BADGES[12].rule, learned, progress, rs, ms, stats) <==> stats.bubbleWins >= 1
  {
    assert BADGES[10].rule == PerfectQuizzesAtLeast(1);
    assert BADGES[11].rule == MemoryWinsAtLeast(1);
    assert BADGES[12].rule == BubbleWinsAtLeast(1);
  }

  /** The play badges: 10 days played, 10 words in one session. */
  lemma PlayBadges(progress: ProfileProgress, learned: nat, rs: int, ms: int, stats: GameStats)
    ensures RuleHolds(BADGES[21].rule, learned, progress, rs, ms, stats) <==> stats.daysPlayed >= 10
    ensures RuleHolds(BADGES[22].rule, learned, progress, rs, ms, stats) <==> stats.maxWordsInSession >= 10
  {
    assert BADGES[21].rule == DaysPlayedAtLeast(10);
    assert BADGES[22].rule == WordsInSessionAtLeast(10);
  }

  /** The review badges and the explorer: 5 review sessions, a review streak of 10, every catalog topic started. */
  lemma ReviewBadges(progress: ProfileProgress, learned: nat, rs: int, ms: int, stats: GameStats)
    ensures RuleHolds(BADGES[13].rule, learned, progress, rs, ms, stats) <==> rs >= 5
    ensures RuleHolds(BADGES[14].rule, learned, progress, rs, ms, stats) <==> ms >= 10
    ensures RuleHolds(BADGES[18].rule, learned, progress, rs, ms, stats) <==> |stats.topicsStarted| >= 5
  {
    assert BADGES[13].rule == ReviewSessionsAtLeast(5);
    assert BADGES[14].rule == ReviewStreakAtLeast(10);
    assert BADGES[18].rule == StartedEveryTopic;
  }

  /**
   * A catalog topic badge holds exactly when the topic's learned list is
   * at least as long as the catalog topic: animals and colors.
   */
  lemma TopicBadgesFirst(progress: ProfileProgress, learned: nat, rs: int, ms: int, stats: GameStats)
    ensures RuleHolds(BADGES[1].rule, learned, progress, rs, ms, stats) <==> "animals" in progress.topicProgress && |progress.topicProgress["animals"].wordsLearned| >= 15
    ensures RuleHolds(BADGES[2].rule, learned, progress, rs, ms, stats) <==> "colors" in progress.topicProgress && |progress.topicProgress["colors"].wordsLearned| >= 10
  {
    assert BADGES[1].rule == AllWordsIn("animals");
    assert BADGES[2].rule == AllWordsIn("colors");
    CatalogSize();
    AllWordsInCatalogTopic(progress, 0);
    AllWordsInCatalogTopic(progress, 1);
  }

  /** The numbers badge, as in TopicBadgesFirst. */
  lemma TopicBadgesNumbers(progress: ProfileProgress, learned: nat, rs: int, ms: int, stats: GameStats)
    ensures RuleHolds(BADGES[3].rule, learned, progress, rs, ms, stats) <==> "numbers" in progress.topicProgress && |progress.topicProgress["numbers"].wordsLearned| >= 10
  {
    assert BADGES[3].rule == AllWordsIn("numbers");
    CatalogSize();
    AllWordsInCatalogTopic(progress, 2);
  }

  /** The food and body badges, as in TopicBadgesFirst. */
  lemma TopicBadgesRest(progress: ProfileProgress, learned: nat, rs: int, ms: int, stats: GameStats)
    ensures RuleHolds(BADGES[4].rule, learned, progress, rs, ms, stats) <==> "food" in progress.topicProgress && |progress.topicProgress["food"].wordsLearned| >= 12
    ensures RuleHolds(BADGES[5].rule, learned, progress, rs, ms, stats) <==> "body" in progress.topicProgress && |progress.topicProgress["body"].wordsLearned| >= 10
  {
    assert BADGES[4].rule == AllWordsIn("food");
    assert BADGES[5].rule == AllWordsIn("body");
    CatalogSize();
    AllWordsInCatalogTopic(progress, 3);
    AllWordsInCatalogTopic(progress, 4);
  }
}
