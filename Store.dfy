/**
 * The progress part of the app store (src/store.ts): a map from profile id
 * to that profile's ProgressData, and the three reducers the store applies
 * to it. Each reducer returns the new map; the rest of the app state, the
 * Effect `Ref` that holds it, persistence and listeners are not modelled.
 */
module Store {
  import opened Common

  /** One profile's progress; `wordsLearned` maps a topic id to its words. */
  datatype ProgressData = ProgressData(
    wordsLearned: map<string, seq<string>>,
    gamesPlayed: int,
    correctAnswers: int,
    totalAnswers: int,
    streak: int,
    lastPlayed: string)

  /** `AppState.progress`: profile id -> ProgressData. */
  type Progress = map<string, ProgressData>

  /** A profile's record, or an all-zero record when it has none yet. */
  function GetProgress(progress: Progress, profileId: string): (p: ProgressData)
    ensures profileId in progress ==> p == progress[profileId]
    ensures profileId !in progress ==>
              p.wordsLearned == map[] && p.gamesPlayed == 0 && p.correctAnswers == 0 &&
              p.totalAnswers == 0 && p.streak == 0 && p.lastPlayed == ""
  {
    if profileId in progress then progress[profileId]
    else ProgressData(map[], 0, 0, 0, 0, "")
  }

  /** `p.wordsLearned[topicId] || []`. */
  function LearnedIn(p: ProgressData, topicId: string): (r: seq<string>)
    ensures topicId in p.wordsLearned ==> r == p.wordsLearned[topicId]
    ensures topicId !in p.wordsLearned ==> r == []
  {
    if topicId in p.wordsLearned then p.wordsLearned[topicId] else []
  }

  /**
   * `[...new Set(xs)]`: each element once, in the order of its first
   * occurrence.
   */
  function Dedup(xs: seq<string>): (r: seq<string>)
    ensures NoDuplicates(r)
    ensures forall x :: x in r <==> x in xs
    ensures |r| <= |xs|
    decreases |xs|
  {
    if |xs| == 0 then []
    else
      var front := Dedup(xs[..|xs| - 1]);
      if xs[|xs| - 1] in xs[..|xs| - 1] then front else front + [xs[|xs| - 1]]
  }

  /** A list without duplicates passes through a Set unchanged. */
  lemma {:induction false} DedupOfDistinct(xs: seq<string>)
    requires NoDuplicates(xs)
    ensures Dedup(xs) == xs
  {
    if |xs| > 0 {
      var init := xs[..|xs| - 1];
      assert NoDuplicates(init) by {
        forall i, j | 0 <= i < j < |init| ensures init[i] != init[j] {
          assert init[i] == xs[i] && init[j] == xs[j];
        }
      }
      DedupOfDistinct(init);
      assert xs[|xs| - 1] !in init by {
        forall i | 0 <= i < |init| ensures init[i] != xs[|xs| - 1] {
          assert init[i] == xs[i];
        }
      }
      assert init + [xs[|xs| - 1]] == xs;
    }
  }

  /** Adding one element to a Set appends it unless it is already there. */
  lemma DedupSnoc(xs: seq<string>, w: string)
    ensures Dedup(xs + [w]) == if w in xs then Dedup(xs) else Dedup(xs) + [w]
  {
    assert (xs + [w])[..|xs|] == xs;
  }

  /**
   * The record part of `markWordLearned`: the topic's list becomes the Set
   * of its old words plus `word`, and `lastPlayed` becomes `timestamp`.
   */
  function AddLearned(p: ProgressData, topicId: string, word: string, timestamp: string): (q: ProgressData)
    ensures q.wordsLearned.Keys == p.wordsLearned.Keys + {topicId}
    ensures forall t :: t in p.wordsLearned && t != topicId ==> q.wordsLearned[t] == p.wordsLearned[t]
    ensures NoDuplicates(q.wordsLearned[topicId])
    ensures forall x :: x in q.wordsLearned[topicId] <==> x == word || x in LearnedIn(p, topicId)
    ensures q.gamesPlayed == p.gamesPlayed && q.correctAnswers == p.correctAnswers
    ensures q.totalAnswers == p.totalAnswers && q.streak == p.streak
    ensures q.lastPlayed == timestamp
  {
    p.(wordsLearned := p.wordsLearned[topicId := Dedup(LearnedIn(p, topicId) + [word])],
       lastPlayed := timestamp)
  }

  /**
   * `markWordLearned`: only the profile's record changes, as AddLearned
   * says; `timestamp` is the ISO string of the current time, which the
   * source reads from the clock.
   */
  function MarkWordLearned(progress: Progress, profileId: string, topicId: string, word: string,
                           timestamp: string): (r: Progress)
    ensures r.Keys == progress.Keys + {profileId}
    ensures forall q :: q in progress && q != profileId ==> r[q] == progress[q]
    ensures r[profileId] == AddLearned(GetProgress(progress, profileId), topicId, word, timestamp)
  {
    progress[profileId := AddLearned(GetProgress(progress, profileId), topicId, word, timestamp)]
  }

  /** On a list without duplicates, marking a word appends it once, or changes nothing. */
  lemma MarkKeepsOrder(p: ProgressData, topicId: string, word: string, timestamp: string)
    requires NoDuplicates(LearnedIn(p, topicId))
    ensures var xs := LearnedIn(p, topicId);
            LearnedIn(AddLearned(p, topicId, word, timestamp), topicId) == if word in xs then xs else xs + [word]
  {
    var xs := LearnedIn(p, topicId);
    DedupSnoc(xs, word);
    DedupOfDistinct(xs);
  }

  /**
   * Recording the same word again, at any later time, leaves the word lists
   * as they are and only moves `lastPlayed`.
   */
  lemma AddLearnedIdempotent(p: ProgressData, topicId: string, word: string, ts1: string, ts2: string)
    ensures var once := AddLearned(p, topicId, word, ts1);
            AddLearned(once, topicId, word, ts2) == once.(lastPlayed := ts2)
  {
    var once := AddLearned(p, topicId, word, ts1);
    var xs := once.wordsLearned[topicId];
    assert LearnedIn(once, topicId) == xs;
    assert word in xs;
    DedupSnoc(xs, word);
    DedupOfDistinct(xs);
    UpdateSameValue(once.wordsLearned, topicId);
  }

  /**
   * Marking the same word again, at any later time, changes only the
   * profile's `lastPlayed`.
   */
  lemma MarkIdempotent(progress: Progress, profileId: string, topicId: string, word: string,
                       ts1: string, ts2: string)
    ensures var once := MarkWordLearned(progress, profileId, topicId, word, ts1);
            MarkWordLearned(once, profileId, topicId, word, ts2)
              == once[profileId := once[profileId].(lastPlayed := ts2)]
  {
    var once := MarkWordLearned(progress, profileId, topicId, word, ts1);
    AddLearnedIdempotent(GetProgress(progress, profileId), topicId, word, ts1, ts2);
    assert GetProgress(once, profileId) == once[profileId];
  }

  lemma UpdateSameValue<K, V>(m: map<K, V>, k: K)
    requires k in m
    ensures m[k := m[k]] == m
  {
  }

  /**
   * `recordGameAnswer`: one more answer; a correct one also counts as
   * correct and extends the streak, a wrong one resets the streak.
   */
  function RecordGameAnswer(progress: Progress, profileId: string, correct: bool, timestamp: string): (r: Progress)
    ensures r.Keys == progress.Keys + {profileId}
    ensures forall q :: q in progress && q != profileId ==> r[q] == progress[q]
    ensures var before, after := GetProgress(progress, profileId), r[profileId];
            && after.totalAnswers == before.totalAnswers + 1
            && after.correctAnswers == before.correctAnswers + (if correct then 1 else 0)
            && after.streak == (if correct then before.streak + 1 else 0)
            && after.wordsLearned == before.wordsLearned
            && after.gamesPlayed == before.gamesPlayed
            && after.lastPlayed == timestamp
  {
    var p := GetProgress(progress, profileId);
    var p' := p.(totalAnswers := p.totalAnswers + 1);
    var p'' := if correct then p'.(correctAnswers := p'.correctAnswers + 1, streak := p'.streak + 1)
               else p'.(streak := 0);
    progress[profileId := p''.(lastPlayed := timestamp)]
  }

  /** `recordGamePlayed`: one more game; nothing else changes, not even `lastPlayed`. */
  function RecordGamePlayed(progress: Progress, profileId: string): (r: Progress)
    ensures r.Keys == progress.Keys + {profileId}
    ensures forall q :: q in progress && q != profileId ==> r[q] == progress[q]
    ensures r[profileId] == GetProgress(progress, profileId).(gamesPlayed := GetProgress(progress, profileId).gamesPlayed + 1)
  {
    var p := GetProgress(progress, profileId);
    progress[profileId := p.(gamesPlayed := p.gamesPlayed + 1)]
  }

  /** A run of answers recorded one after another. */
  function Answers(progress: Progress, profileId: string, answers: seq<bool>, timestamp: string): Progress
    decreases |answers|
  {
    if |answers| == 0 then progress
    else RecordGameAnswer(Answers(progress, profileId, answers[..|answers| - 1], timestamp),
                          profileId, answers[|answers| - 1], timestamp)
  }

  /** The number of correct answers in a run. */
  function CountCorrect(answers: seq<bool>): nat
  {
    if |answers| == 0 then 0
    else CountCorrect(answers[..|answers| - 1]) + (if answers[|answers| - 1] then 1 else 0)
  }

  /** The number of correct answers at the end of a run, after its last wrong one. */
  function TrailingCorrect(answers: seq<bool>): nat
  {
    if |answers| == 0 || !answers[|answers| - 1] then 0
    else TrailingCorrect(answers[..|answers| - 1]) + 1
  }

  /**
   * After a run of answers, the totals grow by the run's length and its
   * correct answers, and the streak counts the correct answers since the
   * run's last wrong one (or extends the old streak when there is none).
   */
  lemma {:induction false} AnswersTally(progress: Progress, profileId: string, answers: seq<bool>,
                                        timestamp: string)
    ensures var before, after := GetProgress(progress, profileId),
                                 GetProgress(Answers(progress, profileId, answers, timestamp), profileId);
            && after.totalAnswers == before.totalAnswers + |answers|
            && after.correctAnswers == before.correctAnswers + CountCorrect(answers)
            && after.streak == (if false in answers then TrailingCorrect(answers)
                                else before.streak + |answers|)
            && after.wordsLearned == before.wordsLearned
            && after.gamesPlayed == before.gamesPlayed
    decreases |answers|
  {
    if |answers| > 0 {
      var init := answers[..|answers| - 1];
      AnswersTally(progress, profileId, init, timestamp);
      assert answers == init + [answers[|answers| - 1]];
      assert (false in answers) == (false in init || !answers[|answers| - 1]);
    }
  }

  /** The counters of a record agree with each other. */
  predicate Plausible(p: ProgressData)
  {
    0 <= p.streak <= p.correctAnswers <= p.totalAnswers && 0 <= p.gamesPlayed
  }

  ghost predicate AllPlausible(progress: Progress)
  {
    forall q :: q in progress ==> Plausible(progress[q])
  }

  lemma GetProgressPlausible(progress: Progress, profileId: string)
    requires AllPlausible(progress)
    ensures Plausible(GetProgress(progress, profileId))
  {
  }

  /** Each reducer keeps every record's counters in agreement. */
  lemma ReducersKeepPlausible(progress: Progress, profileId: string, topicId: string, word: string,
                              correct: bool, timestamp: string)
    requires AllPlausible(progress)
    ensures AllPlausible(MarkWordLearned(progress, profileId, topicId, word, timestamp))
    ensures AllPlausible(RecordGameAnswer(progress, profileId, correct, timestamp))
    ensures AllPlausible(RecordGamePlayed(progress, profileId))
  {
    GetProgressPlausible(progress, profileId);
  }
}
