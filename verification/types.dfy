/** Shared data model of the vocabulary application (src/types/vocabulary.ts).
    Timestamps are integer milliseconds since the epoch; `Date` values become `int`. */
module VocabularyTypes {

  datatype Option<T> = None | Some(value: T)

  datatype Result<T, E> = Success(value: T) | Failure(error: E)

  /** The three-valued learning status of a word. */
  datatype WordStatus = New | Learning | Mastered

  /** One vocabulary entry. An absent `category` is the empty string, which the
      application treats exactly like a missing one (`category || ...`). */
  datatype VocabularyWord = VocabularyWord(
    id: string,
    word: string,
    partOfSpeech: string,
    pronunciation: Option<string>,
    category: string,
    meaning: string,
    example: string,
    status: WordStatus,
    masteryLevel: int,
    lastReviewed: Option<int>,
    nextReviewDate: Option<int>,
    timesReviewed: int,
    timesCorrect: int)

  /** A named list of word ids. */
  datatype Collection = Collection(
    id: string,
    name: string,
    description: string,
    words: seq<string>,
    createdAt: int,
    updatedAt: int)

  /** The per-user study counters. */
  datatype StudyStats = StudyStats(
    totalWordsLearned: int,
    totalWordsMastered: int,
    totalStudySessions: int,
    totalStudyTime: int,
    lastStudySession: Option<int>,
    dailyStreak: int)

  /** One multiple-choice question about `word`. */
  datatype QuizQuestion = QuizQuestion(
    wordId: string,
    word: VocabularyWord,
    options: seq<string>,
    correctAnswerIndex: int)

  /** The ids of `words`, in order. */
  function Ids(words: seq<VocabularyWord>): (r: seq<string>)
    ensures |r| == |words|
    ensures forall i :: 0 <= i < |words| ==> r[i] == words[i].id
  {
    if words == [] then [] else [words[0].id] + Ids(words[1..])
  }

  /** No element of `xs` occurs twice. */
  predicate NoDuplicates<T(==)>(xs: seq<T>)
  {
    forall i, j :: 0 <= i < j < |xs| ==> xs[i] != xs[j]
  }
}
