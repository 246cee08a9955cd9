/**
 * The spaced-repetition scheduler of src/spaced-repetition.ts.
 *
 * Each (topic, word) pair the learner has met has a history record stored
 * under the key `topicId:word`; `RecordWordSeen` updates that record in place
 * and the queries read the stored records in the order `Object.values` gives
 * them (key insertion order). Time is the caller's `now` in milliseconds and
 * `difficulty` is kept in integer tenths, so 3 stands for 0.3 and 10 for 1.0.
 */
module SpacedRepetition {
  import opened Common

  /** The interval ladder, in days. */
  const INTERVALS: seq<nat> := [1, 3, 7, 14, 30]
  const DAY_MS: int := 24 * 60 * 60 * 1000
  /** Difficulty of a fresh record, in tenths. */
  const SEED_DIFFICULTY: int := 3
  /** The top of the difficulty scale, 1.0, in tenths. */
  const MAX_DIFFICULTY: int := 10

  datatype WordHistory = WordHistory(
    word: string,
    topicId: string,
    timesSeen: nat,
    timesCorrect: nat,
    timesWrong: nat,
    lastSeen: int,
    nextReview: int,
    interval: nat,
    difficulty: int)

  /** The map key `${topicId}:${word}`. */
  function WordKey(topicId: string, word: string): (k: string)
    ensures |k| == |topicId| + 1 + |word|
    ensures k[..|topicId|] == topicId && k[|topicId|] == ':' && k[|topicId| + 1..] == word
  {
    topicId + ":" + word
  }

  /** Keys are unambiguous as long as topic ids carry no colon. */
  lemma WordKeyInjective(t1: string, w1: string, t2: string, w2: string)
    requires ':' !in t1 && ':' !in t2
    requires WordKey(t1, w1) == WordKey(t2, w2)
    ensures t1 == t2 && w1 == w2
  {
    var k := WordKey(t1, w1);
    assert |t1| == |t2|;
    assert t1 == k[..|t1|] == t2;
  }

  /** With a colon in the topic id, two different pairs share one record. */
  lemma WordKeyCollision()
    ensures WordKey("a:b", "c") == WordKey("a", "b:c")
  {
  }

  /** `Array.prototype.indexOf`: the first position of `x`, or -1. */
  function IndexOf(s: seq<nat>, x: nat): (i: int)
    ensures -1 <= i < |s|
    ensures i == -1 <==> x !in s
    ensures 0 <= i ==> s[i] == x && forall j :: 0 <= j < i ==> s[j] != x
  {
    if |s| == 0 then -1
    else if s[0] == x then 0
    else
      var i := IndexOf(s[1..], x);
      assert forall j :: 1 <= j < |s| ==> s[j] == s[1..][j - 1];
      if i < 0 then -1 else i + 1
  }

  /**
   * The interval after a correct answer: one rung up the ladder, capped at the
   * top. An interval that is not on the ladder (the seed 0) counts as rung 0,
   * so it moves to rung 1, which is 3 days.
   */
  function NextInterval(interval: nat): (r: nat)
    ensures r in INTERVALS[1..]
    ensures forall i :: 0 <= i < |INTERVALS| && INTERVALS[i] == interval ==>
              r == INTERVALS[Min(i + 1, |INTERVALS| - 1)]
    ensures interval !in INTERVALS ==> r == INTERVALS[1]
  {
    var currentIdx := IndexOf(INTERVALS, interval);
    var nextIdx := Min((if currentIdx < 0 then 0 else currentIdx) + 1, |INTERVALS| - 1);
    INTERVALS[nextIdx]
  }

  /** The record created on the first encounter of a word. */
  function Seed(topicId: string, word: string, now: int): (r: WordHistory)
    ensures r.word == word && r.topicId == topicId
    ensures r.timesSeen == 0 && r.timesCorrect == 0 && r.timesWrong == 0
    ensures r.lastSeen == now && r.nextReview == now && r.interval == 0 && r.difficulty == SEED_DIFFICULTY
  {
    WordHistory(word, topicId, 0, 0, 0, now, now, 0, SEED_DIFFICULTY)
  }

  /** The record `recordWordSeen` starts from: the stored one, or a fresh seed. */
  function Existing(words: map<string, WordHistory>, topicId: string, word: string, now: int): (r: WordHistory)
    ensures WordKey(topicId, word) in words ==> r == words[WordKey(topicId, word)]
    ensures WordKey(topicId, word) !in words ==> r == Seed(topicId, word, now)
  {
    var key := WordKey(topicId, word);
    if key in words then words[key] else Seed(topicId, word, now)
  }

  /** What one encounter at time `now` makes of a record. */
  function Seen(h: WordHistory, correct: bool, now: int): (r: WordHistory)
    ensures r.word == h.word && r.topicId == h.topicId
    ensures r.timesSeen == h.timesSeen + 1 && r.lastSeen == now
    ensures correct ==> r.timesCorrect == h.timesCorrect + 1 && r.timesWrong == h.timesWrong
    ensures !correct ==> r.timesWrong == h.timesWrong + 1 && r.timesCorrect == h.timesCorrect
    ensures r.interval in INTERVALS
    ensures correct ==> r.interval in {3, 7, 14, 30}
    ensures !correct ==> r.interval == INTERVALS[0]
    ensures r.difficulty == if correct then Max(0, h.difficulty - 1) else Min(MAX_DIFFICULTY, h.difficulty + 2)
    ensures r.nextReview == now + r.interval * DAY_MS
  {
    var interval := if correct then NextInterval(h.interval) else INTERVALS[0];
    h.(timesSeen := h.timesSeen + 1,
       timesCorrect := if correct then h.timesCorrect + 1 else h.timesCorrect,
       timesWrong := if correct then h.timesWrong else h.timesWrong + 1,
       lastSeen := now,
       interval := interval,
       difficulty := if correct then Max(0, h.difficulty - 1) else Min(MAX_DIFFICULTY, h.difficulty + 2),
       nextReview := now + interval * DAY_MS)
  }

  /**
   * The invariant of a history record: the counters agree, the difficulty is
   * within 0..10 tenths, the interval is on the ladder or is the seed 0 of a record
   * never answered, and the next review is `interval` days after the last one.
   */
  ghost predicate WellFormed(h: WordHistory)
  {
    && h.timesSeen == h.timesCorrect + h.timesWrong
    && 0 <= h.difficulty <= MAX_DIFFICULTY
    && (h.interval in INTERVALS || (h.interval == 0 && h.timesSeen == 0))
    && h.nextReview == h.lastSeen + h.interval * DAY_MS
  }

  lemma SeedWellFormed(topicId: string, word: string, now: int)
    ensures WellFormed(Seed(topicId, word, now))
  {
  }

  /** Every encounter keeps a record well formed. */
  lemma SeenWellFormed(h: WordHistory, correct: bool, now: int)
    requires WellFormed(h)
    ensures WellFormed(Seen(h, correct, now))
    ensures Seen(h, correct, now).interval != 0
  {
  }

  /** A correct answer climbs exactly one rung, and stays put at the top. */
  lemma CorrectClimbsOneRung(h: WordHistory, i: nat, now: int)
    requires i < |INTERVALS| && h.interval == INTERVALS[i]
    ensures Seen(h, true, now).interval == INTERVALS[Min(i + 1, |INTERVALS| - 1)]
  {
  }

  /** `Seen` applied `n` times with the same answer at the same time. */
  function Repeat(h: WordHistory, correct: bool, now: int, n: nat): WordHistory
  {
    if n == 0 then h else Seen(Repeat(h, correct, now, n - 1), correct, now)
  }

  /**
   * Starting from a fresh record, the n-th consecutive correct answer puts the
   * word on rung n of the ladder (capped at the top): 3, 7, 14, 30, 30, ...
   * The first rung, 1 day, is skipped; it is reached only after a wrong answer.
   */
  lemma {:induction false} CorrectRunFromSeed(topicId: string, word: string, now: int, n: nat)
    requires n >= 1
    ensures Repeat(Seed(topicId, word, now), true, now, n).interval == INTERVALS[Min(n, |INTERVALS| - 1)]
    ensures Repeat(Seed(topicId, word, now), true, now, n).timesCorrect == n
  {
    if n > 1 {
      CorrectRunFromSeed(topicId, word, now, n - 1);
      CorrectClimbsOneRung(Repeat(Seed(topicId, word, now), true, now, n - 1), Min(n - 1, |INTERVALS| - 1), now);
    }
  }

  /** A wrong answer after any run of correct ones puts the word back on 1 day. */
  lemma WrongResetsLadder(h: WordHistory, now: int)
    ensures Seen(h, false, now).interval == 1
    ensures Seen(h, false, now).nextReview == now + DAY_MS
  {
  }

  /** The first encounter of a word answered correctly (3 days, difficulty 0.2). */
  lemma FirstCorrectEncounter(topicId: string, word: string, now: int)
    ensures var h := Seen(Seed(topicId, word, now), true, now);
      h.timesSeen == 1 && h.timesCorrect == 1 && h.timesWrong == 0 &&
      h.interval == 3 && h.difficulty == 2 && h.nextReview == now + 3 * DAY_MS
  {
  }

  /** `Object.values(words)` when the keys were inserted in the order `keys`. */
  function ValuesOf(words: map<string, WordHistory>, keys: seq<string>): (r: seq<WordHistory>)
    requires forall k :: k in keys ==> k in words
    ensures |r| == |keys|
    ensures forall i :: 0 <= i < |keys| ==> r[i] == words[keys[i]]
  {
    if |keys| == 0 then [] else [words[keys[0]]] + ValuesOf(words, keys[1..])
  }

  /** Storing under a key keeps the key list duplicate-free and in step with the map. */
  lemma StoreKeepsKeys(words: map<string, WordHistory>, keys: seq<string>, key: string, h: WordHistory)
    requires NoDuplicates(keys) && forall k :: k in keys <==> k in words
    ensures var keys' := if key in words then keys else keys + [key];
            NoDuplicates(keys') && forall k :: k in keys' <==> k in words[key := h]
  {
  }

  /**
   * The in-place steps `recordWordSeen` applies to the record it looked up:
   * count the encounter, move the interval and the difficulty, then
   * schedule the next review.
   */
  method Encounter(h: WordHistory, correct: bool, now: int) returns (r: WordHistory)
    ensures r == Seen(h, correct, now)
  {
    r := h.(timesSeen := h.timesSeen + 1);
    r := r.(lastSeen := now);
    if correct {
      r := r.(timesCorrect := r.timesCorrect + 1);
      r := r.(interval := NextInterval(r.interval));
      r := r.(difficulty := Max(0, r.difficulty - 1));
    } else {
      r := r.(timesWrong := r.timesWrong + 1);
      r := r.(interval := INTERVALS[0]);
      r := r.(difficulty := Min(MAX_DIFFICULTY, r.difficulty + 2));
    }
    r := r.(nextReview := now + r.interval * DAY_MS);
  }

  /** Every stored record is well formed. */
  ghost predicate AllWellFormed(words: map<string, WordHistory>)
  {
    forall k :: k in words ==> WellFormed(words[k])
  }

  /** One encounter of a word keeps every stored record well formed. */
  lemma EncounterKeepsWellFormed(words: map<string, WordHistory>, topicId: string, word: string,
                                 correct: bool, now: int)
    requires AllWellFormed(words)
    ensures AllWellFormed(words[WordKey(topicId, word) := Seen(Existing(words, topicId, word, now), correct, now)])
  {
    SeedWellFormed(topicId, word, now);
    SeenWellFormed(Existing(words, topicId, word, now), correct, now);
  }

  /** Persisted scheduler state of one profile, updated in place by `RecordWordSeen`. */
  class SRData {
    var words: map<string, WordHistory>
    /** The keys of `words` in insertion order, the order `Object.values` uses. */
    var keys: seq<string>
    var reviewSessionsCompleted: int
    var reviewCorrectStreak: int
    var maxReviewCorrectStreak: int

    ghost predicate Valid()
      reads this
    {
      NoDuplicates(keys) && forall k :: k in keys <==> k in words
    }

    /** Every stored record is well formed. */
    ghost predicate Consistent()
      reads this
    {
      AllWellFormed(words)
    }

    /** The empty state `loadSRData` falls back to when nothing is stored. */
    constructor ()
      ensures Valid() && Consistent()
      ensures words == map[] && keys == []
      ensures reviewSessionsCompleted == 0 && reviewCorrectStreak == 0 && maxReviewCorrectStreak == 0
    {
      words := map[];
      keys := [];
      reviewSessionsCompleted := 0;
      reviewCorrectStreak := 0;
      maxReviewCorrectStreak := 0;
    }

    /** The stored records in `Object.values` order. */
    function Values(): (r: seq<WordHistory>)
      reads this
      requires Valid()
      ensures |r| == |keys| && forall i :: 0 <= i < |keys| ==> r[i] == words[keys[i]]
      ensures forall k :: k in words ==> words[k] in r
    {
      var r := ValuesOf(words, keys);
      assert forall k :: k in words ==> exists i :: 0 <= i < |keys| && keys[i] == k;
      r
    }

    /**
     * `recordWordSeen`: look up or create the record under `topicId:word`,
     * count the encounter, move the interval and the difficulty, and store
     * the record back. Nothing else in the state changes.
     */
    method RecordWordSeen(topicId: string, word: string, correct: bool, now: int)
      requires Valid()
      modifies this
      ensures Valid()
      ensures words == old(words)[WordKey(topicId, word) := Seen(Existing(old(words), topicId, word, now), correct, now)]
      ensures keys == if WordKey(topicId, word) in old(words) then old(keys) else old(keys) + [WordKey(topicId, word)]
      ensures reviewSessionsCompleted == old(reviewSessionsCompleted)
      ensures reviewCorrectStreak == old(reviewCorrectStreak)
      ensures maxReviewCorrectStreak == old(maxReviewCorrectStreak)
      ensures old(Consistent()) ==> Consistent()
    {
      var key := WordKey(topicId, word);
      var existing := if key in words then words[key] else Seed(topicId, word, now);
      ghost var before := words;

      existing := Encounter(existing, correct, now);
      StoreKeepsKeys(words, keys, key, existing);
      if key !in words {
        keys := keys + [key];
      }
      words := words[key := existing];
      if AllWellFormed(before) {
        EncounterKeepsWellFormed(before, topicId, word, correct, now);
      }
    }
  }

  // ----- Queries -----

  /** A record is due once its review time has come and it has been seen. */
  predicate IsDue(h: WordHistory, now: int)
  {
    h.nextReview <= now && h.timesSeen > 0
  }

  /** `!topicId || w.topicId === topicId`; the absent topic id is "". */
  predicate InTopic(h: WordHistory, topicId: string)
  {
    topicId == "" || h.topicId == topicId
  }

  /** The records that are due, in their original order. */
  function DueOnly(values: seq<WordHistory>, now: int): (r: seq<WordHistory>)
    ensures forall h :: multiset(r)[h] == if IsDue(h, now) then multiset(values)[h] else 0
  {
    if |values| == 0 then []
    else
      assert values == [values[0]] + values[1..];
      (if IsDue(values[0], now) then [values[0]] else []) + DueOnly(values[1..], now)
  }

  /** The records of one topic (all of them when `topicId` is ""), in their original order. */
  function TopicOnly(values: seq<WordHistory>, topicId: string): (r: seq<WordHistory>)
    ensures forall h :: multiset(r)[h] == if InTopic(h, topicId) then multiset(values)[h] else 0
  {
    if |values| == 0 then []
    else
      assert values == [values[0]] + values[1..];
      (if InTopic(values[0], topicId) then [values[0]] else []) + TopicOnly(values[1..], topicId)
  }

  /** Non-increasing difficulty from front to back. */
  predicate SortedByDifficulty(s: seq<WordHistory>)
  {
    forall i, j :: 0 <= i < j < |s| ==> s[i].difficulty >= s[j].difficulty
  }

  /** Insert `h` before the first record that is not harder than it. */
  function Insert(h: WordHistory, s: seq<WordHistory>): (r: seq<WordHistory>)
    requires SortedByDifficulty(s)
    ensures SortedByDifficulty(r)
    ensures multiset(r) == multiset(s) + multiset{h}
    ensures |r| > 0 && (r[0] == h || (|s| > 0 && r[0] == s[0]))
  {
    if |s| == 0 || h.difficulty >= s[0].difficulty then [h] + s
    else
      assert s == [s[0]] + s[1..];
      [s[0]] + Insert(h, s[1..])
  }

  /**
   * `.sort((a, b) => b.difficulty - a.difficulty)`: a stable sort, hardest first.
   */
  function SortByDifficulty(s: seq<WordHistory>): (r: seq<WordHistory>)
    ensures SortedByDifficulty(r)
    ensures multiset(r) == multiset(s)
  {
    if |s| == 0 then []
    else
      assert s == [s[0]] + s[1..];
      Insert(s[0], SortByDifficulty(s[1..]))
  }

  /**
   * `getWordsDueForReview`: the due records of the topic (of every topic
   * when `topicId` is ""), each as often as it is stored, hardest first.
   */
  function WordsDueForReview(values: seq<WordHistory>, now: int, topicId: string): (r: seq<WordHistory>)
    ensures forall h :: multiset(r)[h] == if IsDue(h, now) && InTopic(h, topicId) then multiset(values)[h] else 0
    ensures forall h :: h in r <==> h in values && IsDue(h, now) && InTopic(h, topicId)
    ensures SortedByDifficulty(r)
  {
    var r := SortByDifficulty(TopicOnly(DueOnly(values, now), topicId));
    assert forall h :: h in r <==> multiset(r)[h] > 0;
    assert forall h :: h in values <==> multiset(values)[h] > 0;
    r
  }

  /** `getAllLearnedWords`: every record seen at least once, due or not, in stored order. */
  function AllLearnedWords(values: seq<WordHistory>): (r: seq<WordHistory>)
    ensures forall h :: multiset(r)[h] == if h.timesSeen > 0 then multiset(values)[h] else 0
    ensures forall h :: h in r <==> h in values && h.timesSeen > 0
  {
    if |values| == 0 then []
    else
      assert values == [values[0]] + values[1..];
      (if values[0].timesSeen > 0 then [values[0]] else []) + AllLearnedWords(values[1..])
  }

  /**
   * The three filters keep stored order: each distributes over
   * concatenation, so it keeps exactly the qualifying records of each part,
   * in place.
   */
  lemma {:induction false} DueOnlyAppend(a: seq<WordHistory>, b: seq<WordHistory>, now: int)
    ensures DueOnly(a + b, now) == DueOnly(a, now) + DueOnly(b, now)
  {
    if |a| == 0 {
      assert a + b == b;
    } else {
      assert (a + b)[1..] == a[1..] + b;
      DueOnlyAppend(a[1..], b, now);
    }
  }

  lemma {:induction false} TopicOnlyAppend(a: seq<WordHistory>, b: seq<WordHistory>, topicId: string)
    ensures TopicOnly(a + b, topicId) == TopicOnly(a, topicId) + TopicOnly(b, topicId)
  {
    if |a| == 0 {
      assert a + b == b;
    } else {
      assert (a + b)[1..] == a[1..] + b;
      TopicOnlyAppend(a[1..], b, topicId);
    }
  }

  lemma {:induction false} AllLearnedAppend(a: seq<WordHistory>, b: seq<WordHistory>)
    ensures AllLearnedWords(a + b) == AllLearnedWords(a) + AllLearnedWords(b)
  {
    if |a| == 0 {
      assert a + b == b;
    } else {
      assert (a + b)[1..] == a[1..] + b;
      AllLearnedAppend(a[1..], b);
    }
  }

  /** `isWordDueForReview`: false when there is no record under the key. */
  function IsWordDueForReview(words: map<string, WordHistory>, topicId: string, word: string, now: int): (r: bool)
    ensures WordKey(topicId, word) !in words ==> !r
    ensures WordKey(topicId, word) in words ==> (r <==> IsDue(words[WordKey(topicId, word)], now))
  {
    var key := WordKey(topicId, word);
    if key !in words then false
    else
      var h := words[key];
      h.nextReview <= now && h.timesSeen > 0
  }

  /**
   * `isWordDueForReview` agrees with membership of the word's record in the
   * unfiltered due list.
   */
  lemma DueLookupMatchesDueList(sr: SRData, topicId: string, word: string, now: int)
    requires sr.Valid()
    requires WordKey(topicId, word) in sr.words
    ensures IsWordDueForReview(sr.words, topicId, word, now) <==>
            sr.words[WordKey(topicId, word)] in WordsDueForReview(sr.Values(), now, "")
  {
  }

  /** A record never seen is never due, whatever the topic filter. */
  lemma UnseenNeverDue(values: seq<WordHistory>, now: int, topicId: string, h: WordHistory)
    requires h.timesSeen == 0
    ensures h !in WordsDueForReview(values, now, topicId)
    ensures h !in AllLearnedWords(values)
  {
  }

  /** The due list is always part of the learned list. */
  lemma DueAreLearned(values: seq<WordHistory>, now: int, topicId: string)
    ensures forall h :: h in WordsDueForReview(values, now, topicId) ==> h in AllLearnedWords(values)
  {
  }
}
