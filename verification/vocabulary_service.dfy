/** The values the vocabulary service computes before it writes them
    (src/services/vocabularyService.ts): the status derived from a mastery
    level, the word patch of updateWordMasteryLevel, and the merged study
    statistics with the daily-streak rule of updateUserStudyStats. The
    documents read are parameters; the writes themselves are not modelled. */
module VocabularyService {
  import opened VocabularyTypes
  import SpacedRepetition

  /** The status that goes with a mastery level: mastered from 5 up, learning
      above 0, new otherwise. */
  function StatusForLevel(level: int): (status: WordStatus)
    ensures status == Mastered <==> level >= 5
    ensures status == Learning <==> 0 < level < 5
    ensures status == New <==> level <= 0
  {
    if level >= 5 then Mastered
    else if level > 0 then Learning
    else New
  }

  /** A word whose stored status is the one its level calls for. */
  predicate StatusMatchesLevel(w: VocabularyWord)
  {
    w.status == StatusForLevel(w.masteryLevel)
  }

  /** The per-user maps `wordStatus` and `masteryLevels`. */
  datatype UserProgress = UserProgress(wordStatus: map<string, WordStatus>, masteryLevels: map<string, int>)

  function WordMissing(wordId: string): string
  {
    "Word with ID " + wordId + " does not exist"
  }

  /** updateWordMasteryLevel: for a stored word, the word after the update and
      the user's maps after it; for a missing word, the error it throws, and
      nothing is written. */
  function UpdateWordMasteryLevel(stored: Option<VocabularyWord>, progress: UserProgress,
                                  wordId: string, newMasteryLevel: int, now: int)
    : (r: Result<(VocabularyWord, UserProgress), string>)
    ensures stored.None? <==> r == Failure(WordMissing(wordId))
    ensures r.Success? ==>
      var (w, p) := r.value;
      && w.masteryLevel == newMasteryLevel
      && w.status == StatusForLevel(newMasteryLevel)
      && w.lastReviewed == Some(now)
      && w.timesReviewed == stored.value.timesReviewed + 1
      && w.(masteryLevel := stored.value.masteryLevel, status := stored.value.status,
            lastReviewed := stored.value.lastReviewed, timesReviewed := stored.value.timesReviewed)
         == stored.value
      && p.wordStatus == progress.wordStatus[wordId := StatusForLevel(newMasteryLevel)]
      && p.masteryLevels == progress.masteryLevels[wordId := newMasteryLevel]
  {
    if stored.None? then Failure(WordMissing(wordId))
    else
      var word := stored.value;
      var newStatus := StatusForLevel(newMasteryLevel);
      Success((word.(masteryLevel := newMasteryLevel, status := newStatus, lastReviewed := Some(now),
                     timesReviewed := word.timesReviewed + 1),
               UserProgress(progress.wordStatus[wordId := newStatus],
                            progress.masteryLevels[wordId := newMasteryLevel])))
  }

  /** After an update the word's status agrees with its level, whatever it was
      before, and the user's maps agree with the word. */
  lemma UpdateKeepsStatusAndMapsInStep(stored: Option<VocabularyWord>, progress: UserProgress,
                                       wordId: string, newMasteryLevel: int, now: int)
    requires stored.Some?
    ensures var r := UpdateWordMasteryLevel(stored, progress, wordId, newMasteryLevel, now);
      && StatusMatchesLevel(r.value.0)
      && r.value.1.wordStatus[wordId] == r.value.0.status
      && r.value.1.masteryLevels[wordId] == r.value.0.masteryLevel
  {
  }

  /** The fields a caller may pass to updateUserStudyStats; `None` is a field
      left out. */
  datatype StatsUpdate = StatsUpdate(totalStudyTime: Option<int>, totalStudySessions: Option<int>,
                                     lastStudySession: Option<int>)

  /** The statistics assumed when the user has none yet. */
  const DefaultStats: StudyStats := StudyStats(0, 0, 0, 0, None, 0)

  /** A number field counts as given when present and non-zero (truthy). */
  predicate Truthy(n: Option<int>)
  {
    n.Some? && n.value != 0
  }

  /** The calendar day of a time stamp (midnight-aligned day number). */
  function DayNumber(t: int): int
  {
    t / SpacedRepetition.MsPerDay
  }

  /** The daily-streak rule: a first session starts the streak at 1; a last
      session before yesterday restarts it at 1; a last session yesterday
      extends it by one; a last session today (or later) keeps it. */
  function NextStreak(lastSession: Option<int>, streak: int, now: int): (next: int)
    ensures lastSession.None? ==> next == 1
    ensures lastSession.Some? && DayNumber(lastSession.value) < DayNumber(now) - 1 ==> next == 1
    ensures lastSession.Some? && DayNumber(lastSession.value) == DayNumber(now) - 1 ==> next == streak + 1
    ensures lastSession.Some? && DayNumber(lastSession.value) >= DayNumber(now) ==> next == streak
  {
    if lastSession.None? then 1
    else
      var lastSessionDay := DayNumber(lastSession.value);
      var todayDay := DayNumber(now);
      var yesterdayDay := todayDay - 1;
      if lastSessionDay < yesterdayDay then 1
      else if lastSessionDay < todayDay then streak + 1
      else streak
  }

  function UserMissing(userId: string): string
  {
    "User with ID " + userId + " does not exist"
  }

  /** updateUserStudyStats: the statistics written for the user, or the error
      thrown when the user document does not exist. Amounts are added only when
      truthy; the streak moves only when a session time is given; the learned
      and mastered counts are carried over. */
  function UpdateUserStudyStats(userExists: bool, userId: string, stored: Option<StudyStats>,
                                update: StatsUpdate, now: int)
    : (r: Result<StudyStats, string>)
    ensures !userExists <==> r == Failure(UserMissing(userId))
    ensures r.Success? ==>
      var base := if stored.Some? then stored.value else DefaultStats;
      var s := r.value;
      && s.totalWordsLearned == base.totalWordsLearned
      && s.totalWordsMastered == base.totalWordsMastered
      && s.totalStudyTime == base.totalStudyTime + (if Truthy(update.totalStudyTime) then update.totalStudyTime.value else 0)
      && s.totalStudySessions == base.totalStudySessions + (if Truthy(update.totalStudySessions) then update.totalStudySessions.value else 0)
      && s.lastStudySession == (if update.lastStudySession.Some? then update.lastStudySession else base.lastStudySession)
      && s.dailyStreak == (if update.lastStudySession.Some? then NextStreak(base.lastStudySession, base.dailyStreak, now) else base.dailyStreak)
  {
    if !userExists then Failure(UserMissing(userId))
    else
      var currentStats := if stored.Some? then stored.value else DefaultStats;
      var s1 := if Truthy(update.totalStudyTime)
        then currentStats.(totalStudyTime := currentStats.totalStudyTime + update.totalStudyTime.value)
        else currentStats;
      var s2 := if Truthy(update.totalStudySessions)
        then s1.(totalStudySessions := currentStats.totalStudySessions + update.totalStudySessions.value)
        else s1;
      var s3 := if update.lastStudySession.Some?
        then s2.(lastStudySession := update.lastStudySession,
                 dailyStreak := NextStreak(currentStats.lastStudySession, currentStats.dailyStreak, now))
        else s2;
      Success(s3)
  }

  /** The streak after a run of sessions, each recorded at its own time. */
  function StreakAfter(sessions: seq<int>, stats: StudyStats): StudyStats
    decreases |sessions|
  {
    if sessions == [] then stats
    else
      var next := UpdateUserStudyStats(true, "", Some(stats), StatsUpdate(None, None, Some(sessions[0])), sessions[0]);
      StreakAfter(sessions[1..], next.value)
  }

  /** Sessions on `k` consecutive days, starting from statistics without a
      previous session, leave a streak of `k`. */
  lemma {:induction false} ConsecutiveDaysStreak(sessions: seq<int>, stats: StudyStats)
    requires sessions != []
    requires stats.lastStudySession.None?
    requires forall i :: 0 < i < |sessions| ==> DayNumber(sessions[i]) == DayNumber(sessions[i - 1]) + 1
    ensures StreakAfter(sessions, stats).dailyStreak == |sessions|
    ensures StreakAfter(sessions, stats).lastStudySession == Some(sessions[|sessions| - 1])
  {
    var first := UpdateUserStudyStats(true, "", Some(stats), StatsUpdate(None, None, Some(sessions[0])), sessions[0]).value;
    assert first.dailyStreak == 1 && first.lastStudySession == Some(sessions[0]);
    ContinueStreak(sessions[1..], first, sessions[0], 1);
  }

  lemma {:induction false} ContinueStreak(sessions: seq<int>, stats: StudyStats, last: int, k: int)
    requires stats.lastStudySession == Some(last) && stats.dailyStreak == k
    requires sessions != [] ==> DayNumber(sessions[0]) == DayNumber(last) + 1
    requires forall i :: 0 < i < |sessions| ==> DayNumber(sessions[i]) == DayNumber(sessions[i - 1]) + 1
    ensures StreakAfter(sessions, stats).dailyStreak == k + |sessions|
    ensures StreakAfter(sessions, stats).lastStudySession == Some(if sessions == [] then last else sessions[|sessions| - 1])
    decreases |sessions|
  {
    if sessions != [] {
      var next := UpdateUserStudyStats(true, "", Some(stats), StatsUpdate(None, None, Some(sessions[0])), sessions[0]).value;
      assert next.dailyStreak == k + 1;
      ContinueStreak(sessions[1..], next, sessions[0], k + 1);
    }
  }

  /** A second session on the same day leaves the streak as it is. */
  lemma SameDayKeepsStreak(stats: StudyStats, t: int)
    requires stats.lastStudySession.Some? && DayNumber(stats.lastStudySession.value) == DayNumber(t)
    ensures StreakAfter([t], stats).dailyStreak == stats.dailyStreak
  {
  }

  /** A gap of more than one day restarts the streak at 1. */
  lemma GapRestartsStreak(stats: StudyStats, t: int)
    requires stats.lastStudySession.Some? && DayNumber(stats.lastStudySession.value) < DayNumber(t) - 1
    ensures StreakAfter([t], stats).dailyStreak == 1
  {
  }
}
