/** The quiz page (src/pages/QuizPage.tsx): which words can be quizzed, how the
    questions are built, and the quiz state (`questions`, the current index,
    `score`, `showResults`, `answeredQuestions`) changed by handleAnswer and
    restartQuiz. The `Math.random() - 0.5` sorts are permutations chosen by
    the caller-supplied draws; nothing more is claimed about them. */
module Quiz {
  import opened VocabularyTypes
  import opened Sequences
  import SpacedRepetition

  const TooFewWords: string :=
    "You need at least 4 words in your vocabulary to take a quiz. Add more words or study your existing ones first."
  const QuizLoadFailed: string := "Failed to load quiz. Please try again."

  /** Questions per quiz and wrong options per question. */
  const MaxQuestions: nat := 10
  const MaxWrongOptions: nat := 3

  /** A permutation of `s` chosen by `draws`: the element at position
      `draws[0] % |s|` goes first, then the rest is permuted by the remaining
      draws (missing draws count as 0). Every permutation can be reached. */
  function Permute<T>(s: seq<T>, draws: seq<nat>): (r: seq<T>)
    ensures |r| == |s|
    ensures multiset(r) == multiset(s)
    decreases |s|
  {
    if |s| <= 1 then s
    else
      var k := (if draws == [] then 0 else draws[0]) % |s|;
      var rest := s[..k] + s[k + 1..];
      assert s == s[..k] + [s[k]] + s[k + 1..];
      [s[k]] + Permute(rest, if draws == [] then [] else draws[1..])
  }

  /** The first `n` elements (`slice(0, n)`). */
  function Take<T>(s: seq<T>, n: nat): (r: seq<T>)
    ensures |r| == if |s| < n then |s| else n
    ensures r == s[..|r|]
  {
    if |s| < n then s else s[..n]
  }

  /** The meanings of `words`, in order. */
  function Meanings(words: seq<VocabularyWord>): (r: seq<string>)
    ensures |r| == |words|
    ensures forall i :: 0 <= i < |words| ==> r[i] == words[i].meaning
  {
    if words == [] then [] else [words[0].meaning] + Meanings(words[1..])
  }

  /** `indexOf`: the first position of `x`, or -1. */
  function IndexOf<T(==)>(s: seq<T>, x: T): (i: int)
    ensures x in s ==> 0 <= i < |s| && s[i] == x && forall k :: 0 <= k < i ==> s[k] != x
    ensures x !in s ==> i == -1
  {
    if s == [] then -1
    else if s[0] == x then 0
    else
      var i := IndexOf(s[1..], x);
      if i == -1 then -1 else i + 1
  }

  /** The words a quiz may ask about: every word that is not new, in order. */
  function TestableWords(words: seq<VocabularyWord>): (r: seq<VocabularyWord>)
    ensures forall w :: w in r <==> w in words && w.status != New
    ensures forall w :: multiset(r)[w] == if w.status != New then multiset(words)[w] else 0
  {
    Filter(words, (w: VocabularyWord) => w.status != New)
  }

  /** The draws of position `k`, none when there are fewer. */
  function DrawsAt(draws: seq<seq<nat>>, k: nat): seq<nat>
  {
    if k < |draws| then draws[k] else []
  }

  /** The other words of the pool: those with a different id. */
  function OtherWords(word: VocabularyWord, pool: seq<VocabularyWord>): (r: seq<VocabularyWord>)
    ensures forall w :: w in r <==> w in pool && w.id != word.id
  {
    Filter(pool, (w: VocabularyWord) => w.id != word.id)
  }

  /** The question about `word`: up to three meanings of other pool words,
      drawn at random, plus the word's own meaning, shuffled; the answer index
      is the first position of the word's meaning. */
  function QuestionFor(word: VocabularyWord, pool: seq<VocabularyWord>, wrongDraws: seq<nat>, optionDraws: seq<nat>)
    : (q: QuizQuestion)
    ensures q.word == word && q.wordId == word.id
  {
    var incorrectOptions := Meanings(Take(Permute(OtherWords(word, pool), wrongDraws), MaxWrongOptions));
    var options := Permute(incorrectOptions + [word.meaning], optionDraws);
    QuizQuestion(word.id, word, options, IndexOf(options, word.meaning))
  }

  /** The wrong options are meanings of pool words with a different id. */
  lemma WrongOptionsComeFromPool(word: VocabularyWord, pool: seq<VocabularyWord>, wrongDraws: seq<nat>)
    ensures forall o :: o in Meanings(Take(Permute(OtherWords(word, pool), wrongDraws), MaxWrongOptions)) ==>
      exists w :: w in pool && w.id != word.id && w.meaning == o
  {
    var others := OtherWords(word, pool);
    var shuffledOthers := Permute(others, wrongDraws);
    var chosen := Take(shuffledOthers, MaxWrongOptions);
    forall o | o in Meanings(chosen)
      ensures exists w :: w in pool && w.id != word.id && w.meaning == o
    {
      var i :| 0 <= i < |chosen| && Meanings(chosen)[i] == o;
      assert chosen[i] in multiset(shuffledOthers);
      assert chosen[i] in others;
    }
  }

  /** Every question asks about its word, offers at most four options, one per
      other word (at most three) plus the right meaning, and its answer index
      points at the first occurrence of the right meaning; each other option is
      the meaning of a pool word with a different id. */
  lemma QuestionIsWellFormed(word: VocabularyWord, pool: seq<VocabularyWord>, wrongDraws: seq<nat>, optionDraws: seq<nat>)
    ensures var q := QuestionFor(word, pool, wrongDraws, optionDraws);
      && q.wordId == word.id && q.word == word
      && |q.options| == 1 + (if |OtherWords(word, pool)| < 3 then |OtherWords(word, pool)| else 3)
      && 1 <= |q.options| <= 4
      && 0 <= q.correctAnswerIndex < |q.options|
      && q.options[q.correctAnswerIndex] == word.meaning
      && (forall k :: 0 <= k < q.correctAnswerIndex ==> q.options[k] != word.meaning)
      && (forall o :: o in q.options && o != word.meaning ==>
            exists w :: w in pool && w.id != word.id && w.meaning == o)
  {
    var incorrectOptions := Meanings(Take(Permute(OtherWords(word, pool), wrongDraws), MaxWrongOptions));
    var all := incorrectOptions + [word.meaning];
    var options := Permute(all, optionDraws);
    assert word.meaning in multiset(options);
    WrongOptionsComeFromPool(word, pool, wrongDraws);
    forall o | o in options && o != word.meaning
      ensures o in incorrectOptions
    {
      assert o in multiset(all);
    }
  }

  /** The words the quiz asks about: the first ten of a permutation of the
      testable words. */
  function QuizWords(words: seq<VocabularyWord>, wordDraws: seq<nat>): (r: seq<VocabularyWord>)
    ensures |r| == if |words| < MaxQuestions then |words| else MaxQuestions
    ensures multiset(r) <= multiset(words)
  {
    var shuffled := Permute(words, wordDraws);
    var r := Take(shuffled, MaxQuestions);
    assert shuffled == r + shuffled[|r|..];
    r
  }

  /** generateQuizQuestions: one question per quiz word, pushed in order. */
  method GenerateQuizQuestions(words: seq<VocabularyWord>, wordDraws: seq<nat>,
                               wrongDraws: seq<seq<nat>>, optionDraws: seq<seq<nat>>)
    returns (quizQuestions: seq<QuizQuestion>)
    ensures |quizQuestions| == if |words| < MaxQuestions then |words| else MaxQuestions
    ensures forall k :: 0 <= k < |quizQuestions| ==>
      quizQuestions[k] == QuestionFor(QuizWords(words, wordDraws)[k], words, DrawsAt(wrongDraws, k), DrawsAt(optionDraws, k))
    ensures forall k :: 0 <= k < |quizQuestions| ==> quizQuestions[k].word in words
  {
    var selectedWords := QuizWords(words, wordDraws);
    quizQuestions := [];
    var k := 0;
    while k < |selectedWords|
      invariant 0 <= k <= |selectedWords|
      invariant |quizQuestions| == k
      invariant forall j :: 0 <= j < k ==>
        quizQuestions[j] == QuestionFor(selectedWords[j], words, DrawsAt(wrongDraws, j), DrawsAt(optionDraws, j))
      invariant forall j :: 0 <= j < k ==> quizQuestions[j].word in words
    {
      var word := selectedWords[k];
      assert word in multiset(selectedWords);
      assert word in words by { assert word in multiset(words); }
      var question := QuestionFor(word, words, DrawsAt(wrongDraws, k), DrawsAt(optionDraws, k));
      var pushed := quizQuestions + [question];
      forall j | 0 <= j < k + 1
        ensures pushed[j] == QuestionFor(selectedWords[j], words, DrawsAt(wrongDraws, j), DrawsAt(optionDraws, j))
        ensures pushed[j].word in words
      {
        if j < k {
          assert pushed[j] == quizQuestions[j];
        } else {
          assert pushed[j] == question;
        }
      }
      quizQuestions := pushed;
      k := k + 1;
    }
  }

  /** The level written after a correct answer: one up, kept in [0, 5]. */
  function LevelAfterCorrect(level: int): int
  {
    if 5 < (if 0 > level + 1 then 0 else level + 1) then 5
    else if 0 > level + 1 then 0 else level + 1
  }

  /** The quiz's level step always lands in [0, 5] and, from a level that is
      not negative, agrees with the scheduler's step for a right answer. */
  lemma LevelAfterCorrectIsSchedulerStep(level: int)
    ensures 0 <= LevelAfterCorrect(level) <= 5
    ensures 0 <= level ==> LevelAfterCorrect(level) == SpacedRepetition.MasteryAdjustment(true, level)
    ensures level < -1 ==> LevelAfterCorrect(level) != SpacedRepetition.MasteryAdjustment(true, level)
  {
  }

  /** A level write sent to the service: word id and new level. */
  datatype LevelWrite = LevelWrite(wordId: string, level: int)

  /** `questions` is the quiz generated over the fetched words that are not
      new: between four and ten questions, question k asking about the k-th
      drawn word, each about a fetched word that is not new. */
  predicate BuiltFrom(questions: seq<QuizQuestion>, fetched: seq<VocabularyWord>, wordDraws: seq<nat>,
                      wrongDraws: seq<seq<nat>>, optionDraws: seq<seq<nat>>)
  {
    && |questions| == |QuizWords(TestableWords(fetched), wordDraws)|
    && 4 <= |questions| <= MaxQuestions
    && (forall k :: 0 <= k < |questions| ==>
          questions[k] == QuestionFor(QuizWords(TestableWords(fetched), wordDraws)[k],
                                      TestableWords(fetched), DrawsAt(wrongDraws, k), DrawsAt(optionDraws, k)))
    && forall k :: 0 <= k < |questions| ==> questions[k].word in fetched && questions[k].word.status != New
  }

  /** The quiz over the fetched words, once there are at least four words that
      are not new. */
  method QuizFromWords(fetched: seq<VocabularyWord>, wordDraws: seq<nat>,
                       wrongDraws: seq<seq<nat>>, optionDraws: seq<seq<nat>>)
    returns (questions: seq<QuizQuestion>)
    requires |TestableWords(fetched)| >= 4
    ensures BuiltFrom(questions, fetched, wordDraws, wrongDraws, optionDraws)
  {
    questions := GenerateQuizQuestions(TestableWords(fetched), wordDraws, wrongDraws, optionDraws);
  }

  /** The quiz page state. */
  class QuizSession {
    var questions: seq<QuizQuestion>
    var currentQuestionIndex: int
    var score: int
    var showResults: bool
    var answeredQuestions: map<string, bool>
    var error: Option<string>
    var levelWrites: seq<LevelWrite>

    constructor()
      ensures questions == [] && currentQuestionIndex == 0 && score == 0 && !showResults
      ensures answeredQuestions == map[] && error == None && levelWrites == []
      ensures Valid()
    {
      questions := [];
      currentQuestionIndex := 0;
      score := 0;
      showResults := false;
      answeredQuestions := map[];
      error := None;
      levelWrites := [];
    }

    /** The index stays within the questions and the score is not negative. */
    predicate Valid()
      reads this
    {
      0 <= score && 0 <= currentQuestionIndex && (questions == [] || currentQuestionIndex < |questions|)
    }

    /** The loading effect: with fewer than four testable words the error is
        set and no questions are made; otherwise the questions are built from
        the testable words. Without a user nothing happens. The effect leaves
        the index, score and answers alone, so a reload in the middle of a
        quiz can leave the index past a shorter list of questions. */
    method Load(loggedIn: bool, fetched: Option<seq<VocabularyWord>>, wordDraws: seq<nat>,
                wrongDraws: seq<seq<nat>>, optionDraws: seq<seq<nat>>)
      requires Valid()
      modifies this
      ensures !loggedIn ==> questions == old(questions) && error == old(error)
      ensures loggedIn && fetched.None? ==> questions == old(questions) && error == Some(QuizLoadFailed)
      ensures loggedIn && fetched.Some? && |TestableWords(fetched.value)| < 4 ==>
        questions == old(questions) && error == Some(TooFewWords)
      ensures loggedIn && fetched.Some? && |TestableWords(fetched.value)| >= 4 ==>
        error == old(error) && BuiltFrom(questions, fetched.value, wordDraws, wrongDraws, optionDraws)
      ensures currentQuestionIndex == old(currentQuestionIndex) && score == old(score)
      ensures answeredQuestions == old(answeredQuestions) && showResults == old(showResults)
      ensures levelWrites == old(levelWrites)
      ensures questions == old(questions) || currentQuestionIndex < |questions| ==> Valid()
    {
      if !loggedIn {
        return;
      }
      if fetched.None? {
        error := Some(QuizLoadFailed);
        return;
      }
      var testableWords := TestableWords(fetched.value);
      if |testableWords| < 4 {
        error := Some(TooFewWords);
        return;
      }
      var quizQuestions := QuizFromWords(fetched.value, wordDraws, wrongDraws, optionDraws);
      SetQuestions(quizQuestions);
    }

    /** setQuestions: the questions are replaced and nothing else changes. */
    method SetQuestions(quizQuestions: seq<QuizQuestion>)
      modifies this
      ensures questions == quizQuestions
      ensures currentQuestionIndex == old(currentQuestionIndex) && score == old(score) && error == old(error)
      ensures answeredQuestions == old(answeredQuestions) && showResults == old(showResults)
      ensures levelWrites == old(levelWrites)
    {
      questions := quizQuestions;
    }

    /** handleAnswer: the score grows by one exactly when the chosen option is
        the right one, and that outcome is recorded under the word id. A right
        answer from a signed-in user also writes the word's new level; if that
        write throws, the handler stops there. Otherwise the index moves on, or
        the results are shown after the last question. */
    method HandleAnswer(selectedIndex: int, loggedIn: bool, writeOk: bool)
      requires Valid() && currentQuestionIndex < |questions|
      modifies this
      ensures var q := old(questions[currentQuestionIndex]);
        var isCorrect := selectedIndex == q.correctAnswerIndex;
        && score == old(score) + (if isCorrect then 1 else 0)
        && answeredQuestions == old(answeredQuestions)[q.wordId := isCorrect]
        && levelWrites == old(levelWrites)
             + (if isCorrect && loggedIn then [LevelWrite(q.wordId, LevelAfterCorrect(q.word.masteryLevel))] else [])
        && (if isCorrect && loggedIn && !writeOk
            then currentQuestionIndex == old(currentQuestionIndex) && showResults == old(showResults)
            else if old(currentQuestionIndex) < |questions| - 1
            then currentQuestionIndex == old(currentQuestionIndex) + 1 && showResults == old(showResults)
            else currentQuestionIndex == old(currentQuestionIndex) && showResults)
      ensures questions == old(questions) && error == old(error)
      ensures Valid()
    {
      var currentQuestion := questions[currentQuestionIndex];
      var isCorrect := selectedIndex == currentQuestion.correctAnswerIndex;
      if isCorrect {
        score := score + 1;
      }
      answeredQuestions := answeredQuestions[currentQuestion.wordId := isCorrect];
      if isCorrect && loggedIn {
        var newMasteryLevel := LevelAfterCorrect(currentQuestion.word.masteryLevel);
        levelWrites := levelWrites + [LevelWrite(currentQuestion.wordId, newMasteryLevel)];
        if !writeOk {
          return;
        }
      }
      if currentQuestionIndex < |questions| - 1 {
        currentQuestionIndex := currentQuestionIndex + 1;
      } else {
        showResults := true;
      }
    }

    /** restartQuiz: back to the first question with nothing answered, the
        questions permuted. */
    method RestartQuiz(draws: seq<nat>)
      modifies this
      ensures currentQuestionIndex == 0 && score == 0 && !showResults && answeredQuestions == map[]
      ensures |questions| == |old(questions)| && multiset(questions) == multiset(old(questions))
      ensures error == old(error) && levelWrites == old(levelWrites)
      ensures Valid()
    {
      currentQuestionIndex := 0;
      score := 0;
      showResults := false;
      answeredQuestions := map[];
      questions := Permute(questions, draws);
    }
  }
}
