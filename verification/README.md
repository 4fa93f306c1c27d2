# Learn-vocabulary: a Dafny model of the study logic

This project models the logic of a vocabulary-learning web application and of
the script that builds its TOEIC word list. It covers:

- the spaced-repetition scheduler: the interval table, the ease factors, the
  due-for-review test, the mastery step and the review prioritiser;
- the flashcard deck hook, with its Fisher-Yates shuffle, clamped cursor,
  flip flags and per-id level updates;
- the study page's grade transitions and completion counters;
- the values the vocabulary service computes before it writes to the
  database: the status derived from a level, and the merged study statistics
  with the daily-streak rule;
- quiz construction and scoring;
- word selection and grouping by category on the selection page;
- collection membership on the collections page;
- the duplicate-word check and the new-word record on the add-word page;
- the status counters on the home page;
- password validation on the registration page;
- the word cleaning and record zipping of `python.py`.

One module stands for each source file, plus three shared modules:

- `VocabularyTypes` (`types.dfy`) holds the data model.
- `Sequences` (`sequences.dfy`) holds `filter`, removal and `new Set` de-duplication.
- `Text` (`text.dfy`) holds ASCII `trim`/`strip` and `toLowerCase`.

Pages and the hook are classes whose fields are the React state. Every
handler is a method that changes those fields. Awaited service calls appear as
their outcome: a boolean saying whether the call returned, or an `Option`
holding the fetched data. The clock is a parameter `now`, in milliseconds.
`Math.random` is represented by caller-supplied draws.

Three behaviours of the code are worth stating up front:

- The daily streak compares UTC day numbers, `t / 86400000`.
- The fallback branch of `isDueForReview` floors a negative elapsed time, so a
  level-0 word whose last review lies in the future is *not* due.
- The add-word submit handler checks only the `wordExists` flag. It relies on
  the effect having recomputed that flag from the current input.

## Model

| member | source | states |
|---|---|---|
| SpacedRepetition.BaseInterval | src/utils/spacedRepetition.ts:7-28 | BASE_INTERVALS with the `\|\| 0` fallback. Its contract is stated by BaseIntervalShape. |
| SpacedRepetition.EaseTenths | src/utils/spacedRepetition.ts:17-21 | EASE_FACTOR in exact tenths. Its contract is stated by IntervalIsRounded and IntervalMonotoneInGrade. |
| SpacedRepetition.IntervalDays | src/utils/spacedRepetition.ts:28-33 | Math.round(baseInterval * easeFactor). IntervalIsRounded states that it is the nearest whole day, a half rounding up, and IntervalExamples and IntervalMonotoneInGrade state its values and order. |
| SpacedRepetition.BaseIntervalShape | src/utils/spacedRepetition.ts:7-14 | The base interval is at most 30 days. It is 0 exactly for level 0 and for levels outside 0..5 (the `\|\| 0` fallback). It grows strictly with the level. |
| SpacedRepetition.IntervalIsRounded | src/utils/spacedRepetition.ts:28-33 | The day offset is the whole number nearest to base × ease, with a half rounded up as Math.round does. The ok grade keeps the base interval. |
| SpacedRepetition.NextReviewDate | src/utils/spacedRepetition.ts:24-36 | The next review lies a whole number of days after `now`: base × ease rounded to the nearest day, a half rounding up. The ok grade gives exactly the base interval. The offset is never negative and at most 45 days. It is 0 for level 0 and for unknown levels, whatever the grade. |
| SpacedRepetition.IntervalExamples | src/utils/spacedRepetition.ts:17-33 | Level 3 difficult gives 4 days. Level 2 easy gives 5. Level 1 easy gives 2. Level 5 easy gives 45. |
| SpacedRepetition.IntervalMonotoneInGrade | src/utils/spacedRepetition.ts:17-21 | difficult ≤ ok ≤ easy for the day offset at every level. |
| SpacedRepetition.IsDueForReview | src/utils/spacedRepetition.ts:39-54 | A stored next-review date decides alone (now ≥ date). Otherwise a never-reviewed word is due. Otherwise the word is due iff the elapsed ms cover the level's base interval in days. |
| SpacedRepetition.DaysElapsedBound | src/utils/spacedRepetition.ts:50-53 | floor(elapsed / day) ≥ n iff elapsed ≥ n days, negative elapsed times included. |
| SpacedRepetition.DueIsMonotone | src/utils/spacedRepetition.ts:39-54 | A word that is due stays due at any later time. |
| SpacedRepetition.ReviewedLevelZeroDue | src/utils/spacedRepetition.ts:47-53 | Take a reviewed level-0 (or unknown-level) word without a next-review date. It is due iff `now` is not before its last review. |
| SpacedRepetition.MasteryAdjustment | src/utils/spacedRepetition.ts:57-66 | One level up when correct, capped at 5. One level down otherwise, floored at 0. A right answer at level ≥ 5 gives exactly 5, and a wrong answer at level ≤ 0 gives exactly 0. From a level in [0,5] the result stays in [0,5] and moves by at most one. |
| SpacedRepetition.FilterReviewable | src/utils/spacedRepetition.ts:71-77 | It keeps every word below level 5 and every due word, with its multiplicity, and nothing else. |
| SpacedRepetition.Compare | src/utils/spacedRepetition.ts:79-98 | The comparator is ≤ 0 iff the key (due first, then level, then last review or 0) of `a` is lexicographically ≤ that of `b`. It is 0 iff the keys are equal. |
| SpacedRepetition.CompareAntisymmetric | src/utils/spacedRepetition.ts:79-98 | compare(a,b) < 0 iff compare(b,a) > 0. |
| SpacedRepetition.InsertKeepsSorted | src/utils/spacedRepetition.ts:79 | Insertion into a key-sorted list keeps it sorted. |
| SpacedRepetition.SortIsSorted | src/utils/spacedRepetition.ts:79 | The stable sort's output is ascending by key. |
| SpacedRepetition.SortByKey | src/utils/spacedRepetition.ts:79 | The sort returns a permutation of its input. |
| SpacedRepetition.InsertWithKey | src/utils/spacedRepetition.ts:79 | An inserted element goes in front of the elements that share its key. |
| SpacedRepetition.SortIsStable | src/utils/spacedRepetition.ts:79 | Elements with equal keys keep their input order. |
| SpacedRepetition.StableSortIsUnique | src/utils/spacedRepetition.ts:79 | Two key-sorted lists with the same equal-key runs are equal. So every stable sort gives this result. |
| SpacedRepetition.PrioritizeWordsForReview | src/utils/spacedRepetition.ts:69-99 | The prioritiser: the filter, then the stable sort by the comparator. Its contract is stated by PrioritizeKeepsReviewable, PrioritizeOrder, PrioritizeTieOrder and PrioritizeIsTheStableSort. |
| SpacedRepetition.PrioritizeKeepsReviewable | src/utils/spacedRepetition.ts:69-77 | The output holds exactly the reviewable input words, with their multiplicities. It contains no level-5 word that is not due. |
| SpacedRepetition.PrioritizeOrder | src/utils/spacedRepetition.ts:79-98 | Due words come before words that are not due. Within equal due-ness, lower level comes first. Within equal level, older review (absent = 0) comes first. Every adjacent pair compares ≤ 0. |
| SpacedRepetition.FilterReviewableRuns | src/utils/spacedRepetition.ts:71-77 | For each comparator key, the filter keeps the caller's run of words with that key whole and in order when such words are reviewable, and drops it otherwise. |
| SpacedRepetition.PrioritizeTieOrder | src/utils/spacedRepetition.ts:69-99 | Words that tie on due-ness, level and review date leave the prioritiser in the order the caller passed them, or all go when they are not reviewable. |
| SpacedRepetition.PrioritizeIsTheStableSort | src/utils/spacedRepetition.ts:79-98 | Full ties keep their input order. Any other key-sorted arrangement of the kept words with the same tie order is the same list. |
| Flashcards.Pick | src/hooks/useFlashcards.tsx:11 | floor(r · n) for r in [0,1) is an index below n. |
| Flashcards.ShuffleArray | src/hooks/useFlashcards.tsx:8-15 | The Fisher-Yates loop over a copied array returns a permutation of its input: the same length and the same multiset. |
| Flashcards.SelectedWords | src/hooks/useFlashcards.tsx:52 | It returns exactly the pool words whose id is selected. |
| Flashcards.LoadDeck | src/hooks/useFlashcards.tsx:26-78 | The error cases are: no user, a failed query, an empty pool. A non-empty selection that matches a word gives exactly the selected pool words, in pool order. Otherwise the deck is the prioritised pool. |
| Flashcards.LoadedDeckEmpty | src/hooks/useFlashcards.tsx:66-68 | A successfully loaded empty deck means the pool was non-empty and every word was a level-5 word that is not due. |
| Flashcards.MarkLevel | src/hooks/useFlashcards.tsx:113-121 | The length is kept. Cards with the id take the level and keep every other field. Other cards are unchanged. |
| Flashcards.MarkLevelProperties | src/hooks/useFlashcards.tsx:113-121 | Marking keeps the ids in place. Marking twice equals marking once with the last level. |
| Flashcards.FlashcardDeck.constructor | src/hooks/useFlashcards.tsx:19-23 | The deck starts empty, with cursor 0, no flip flags and no error. |
| Flashcards.FlashcardDeck.CurrentWord | src/hooks/useFlashcards.tsx:126 | `flashcards[currentIndex]` is present iff the cursor is in range, and then it is a deck card. |
| Flashcards.FlashcardDeck.IsFlipped | src/hooks/useFlashcards.tsx:130 | The stored flag, false for an id never flipped. |
| Flashcards.FlashcardDeck.Load | src/hooks/useFlashcards.tsx:26-78 | The deck or the error becomes LoadDeck's result. The cursor and flags are untouched. |
| Flashcards.FlashcardDeck.NextCard | src/hooks/useFlashcards.tsx:81-85 | The cursor advances only below the last card and stays in range. |
| Flashcards.FlashcardDeck.PrevCard | src/hooks/useFlashcards.tsx:87-91 | The cursor goes back only above 0 and stays in range. |
| Flashcards.FlashcardDeck.FlipCard | src/hooks/useFlashcards.tsx:94-103 | The flag of that id is toggled and every other id's flag is kept. |
| Flashcards.FlashcardDeck.ShuffleCards | src/hooks/useFlashcards.tsx:106-110 | The deck becomes a permutation of itself, the cursor goes to 0 and no card is flipped. |
| Flashcards.FlashcardDeck.MarkCard | src/hooks/useFlashcards.tsx:113-121 | The deck becomes MarkLevel of the old deck. The cursor and flags are kept. |
| FlashcardStudy.DifficultLevel | src/pages/FlashcardStudyPage.tsx:90-91 | `Math.max(0, level - 1)`. GradeLevelsMatchScheduler states that it is the scheduler's step for a wrong answer, pinned at 0. |
| FlashcardStudy.KnownLevel | src/pages/FlashcardStudyPage.tsx:125-126 | `Math.min(5, level + 1)`. GradeLevelsMatchScheduler states that it is the scheduler's step for a right answer, pinned at 5. |
| FlashcardStudy.GradeLevelsMatchScheduler | src/pages/FlashcardStudyPage.tsx:80-187 | difficult gives max(0,L−1), and known gives min(5,L+1): the scheduler's step for a wrong and a right answer. Difficult at L ≤ 0 gives exactly 0 and known at L ≥ 5 exactly 5. For L in [0,5]: difficult ≤ known ≤ skip (5). |
| FlashcardStudy.StudySession.constructor | src/pages/FlashcardStudyPage.tsx:29-37 | All counters start at 0. The session is not completed, the instructions are shown and no swipes are counted. |
| FlashcardStudy.StudySession.CardNumber | src/pages/FlashcardStudyPage.tsx:326 | The card shown is min(processed + 1, total), so it never exceeds the total. |
| FlashcardStudy.StudySession.InitTotalCards | src/pages/FlashcardStudyPage.tsx:61-68 | The total is set to the deck length only while it is 0 and the deck is non-empty. |
| FlashcardStudy.StudySession.HandleSwipeAction | src/pages/FlashcardStudyPage.tsx:70-78 | The swipe count grows by one. The instructions hide once it reaches 3. |
| FlashcardStudy.StudySession.FinishOrAdvance | src/pages/FlashcardStudyPage.tsx:100-106 | The session completes when processed ≥ total or the deck is empty. Otherwise the deck moves to the next card. |
| FlashcardStudy.StudySession.HandleDifficult | src/pages/FlashcardStudyPage.tsx:80-113 | Without a user nothing happens. Otherwise the swipe is counted. When the service call returns, the card drops one level, difficultCards grows by one and the session completes or moves on. The cursor advances by one exactly when the call returned, the session is not complete and the card is not the last; otherwise it stays. The instructions hide once three swipes are counted. The flip state and the deck error are unchanged. |
| FlashcardStudy.StudySession.HandleKnown | src/pages/FlashcardStudyPage.tsx:115-148 | The same as HandleDifficult, with the card one level up and knownCards growing: the same cursor rule, instruction rule and unchanged flip state and deck error. |
| FlashcardStudy.StudySession.HandleSkip | src/pages/FlashcardStudyPage.tsx:150-187 | The card goes to level 5 and skippedCards grows by one. The session completes when processed ≥ total, and the cursor never moves. The instruction rule is that of HandleDifficult, and the flip state and deck error are unchanged. |
| FlashcardStudy.StudySession.StudyAgain | src/pages/FlashcardStudyPage.tsx:274-284 | The counters go back to 0, the session is open again and the instructions are shown. |
| VocabularyService.StatusForLevel | src/services/vocabularyService.ts:208-217 | mastered iff level ≥ 5, learning iff 0 < level < 5, new iff level ≤ 0. |
| VocabularyService.UpdateWordMasteryLevel | src/services/vocabularyService.ts:198-235 | A missing word gives exactly the "does not exist" error. Otherwise the word takes the new level, the derived status, lastReviewed = now and timesReviewed + 1, with every other field kept. The user's two maps are updated at the word id. |
| VocabularyService.UpdateKeepsStatusAndMapsInStep | src/services/vocabularyService.ts:208-230 | After an update the status matches the level, whatever it was before, and the user's maps agree with the word. |
| VocabularyService.NextStreak | src/services/vocabularyService.ts:276-296 | The streak is 1 with no previous session, or when the last session was before yesterday. It is old + 1 when the last session was yesterday, and unchanged when it was today or later. |
| VocabularyService.UpdateUserStudyStats | src/services/vocabularyService.ts:237-306 | A missing user gives the error. Absent stats default to zero. Time and session amounts are added only when truthy. The streak and last session move only when a session time is given. Other fields are carried over. |
| VocabularyService.ConsecutiveDaysStreak | src/services/vocabularyService.ts:272-296 | Sessions on k consecutive days, starting with no previous session, leave a streak of k. |
| VocabularyService.ContinueStreak | src/services/vocabularyService.ts:285-290 | Each further consecutive day adds one to the streak. |
| VocabularyService.SameDayKeepsStreak | src/services/vocabularyService.ts:285-292 | A second session on the same day keeps the streak. |
| VocabularyService.GapRestartsStreak | src/services/vocabularyService.ts:285-287 | A gap of more than one day restarts the streak at 1. |
| Quiz.Permute | src/pages/QuizPage.tsx:75 | The random-comparator sort is represented by a draw-chosen permutation: the same length and multiset. |
| Quiz.Take | src/pages/QuizPage.tsx:78-86 | `slice(0, n)` is the prefix of length min(n, length). |
| Quiz.Meanings | src/pages/QuizPage.tsx:87 | The meanings, index by index. |
| Quiz.IndexOf | src/pages/QuizPage.tsx:93 | The first position of the value, or −1 when it is absent. |
| Quiz.TestableWords | src/pages/QuizPage.tsx:32 | It returns exactly the words whose status is not new, with their multiplicities. |
| Quiz.OtherWords | src/pages/QuizPage.tsx:83 | It returns exactly the pool words with a different id. |
| Quiz.QuestionFor | src/pages/QuizPage.tsx:81-100 | The question is about its word and carries the word's id. |
| Quiz.WrongOptionsComeFromPool | src/pages/QuizPage.tsx:83-87 | Every wrong option is the meaning of a pool word with a different id. |
| Quiz.QuestionIsWellFormed | src/pages/QuizPage.tsx:83-100 | There are 1 + min(3, other words) options, at most 4. The answer index points at the first occurrence of the right meaning. Every other option is the meaning of another pool word. |
| Quiz.QuizWords | src/pages/QuizPage.tsx:75-78 | There are min(10, n) quiz words, a sub-multiset of the testable words. |
| Quiz.GenerateQuizQuestions | src/pages/QuizPage.tsx:71-104 | The loop pushes one question per quiz word, in order: min(10, n) questions, each built by QuestionFor about a testable word. |
| Quiz.LevelAfterCorrect | src/pages/QuizPage.tsx:123-124 | The level written after a right answer. LevelAfterCorrectIsSchedulerStep states its range and its agreement with the scheduler. |
| Quiz.LevelAfterCorrectIsSchedulerStep | src/pages/QuizPage.tsx:123-124 | The written level lies in [0,5]. From a level ≥ 0 it is the scheduler's step for a right answer. Below −1 the two differ. |
| Quiz.QuizSession.constructor | src/pages/QuizPage.tsx:12-18 | The session starts with no questions, index 0, score 0, no results shown and no answers. |
| Quiz.QuizFromWords | src/pages/QuizPage.tsx:31-40 | Given at least four words that are not new, the quiz has between 4 and 10 questions. Question k is QuestionFor of the k-th drawn word, and each question is about a fetched word that is not new. |
| Quiz.QuizSession.Load | src/pages/QuizPage.tsx:21-51 | Nothing happens without a user. A failed query sets the load error. Fewer than 4 testable words sets the too-few error. Otherwise the questions are those of QuizFromWords over the fetched words, and the error is left alone. The index, score, answers, results flag and level writes never change. The session stays valid unless a reload shortens the questions below the index. |
| Quiz.QuizSession.SetQuestions | src/pages/QuizPage.tsx:41 | The questions are replaced and nothing else changes. |
| Quiz.QuizSession.HandleAnswer | src/pages/QuizPage.tsx:106-143 | The score grows iff the chosen index is the answer index, and that outcome is recorded under the word id. A right answer from a user writes min(5, max(0, L+1)). The index advances except at the last question, where the results are shown. |
| Quiz.QuizSession.RestartQuiz | src/pages/QuizPage.tsx:145-154 | The index, score, answers and results flag are reset. The questions become a permutation of themselves. |
| SelectFlashcards.FilteredWords | src/pages/SelectFlashcardsPage.tsx:96-98 | It returns exactly the words with the chosen status, with their multiplicities. |
| SelectFlashcards.ToggleWord | src/pages/SelectFlashcardsPage.tsx:40-48 | A selected id loses every occurrence. An unselected id is appended at the end. Other ids keep their counts. |
| SelectFlashcards.ToggleWordTwice | src/pages/SelectFlashcardsPage.tsx:40-48 | Toggling an unselected id twice restores the selection. |
| SelectFlashcards.SelectAll | src/pages/SelectFlashcardsPage.tsx:57-66 | The selection is cleared when its length equals the filtered count. Otherwise it becomes exactly the filtered ids, in order. |
| SelectFlashcards.SelectAllThenClear | src/pages/SelectFlashcardsPage.tsx:57-66 | On a non-empty list, select-all makes `allSelected` true, and pressing again clears the selection. |
| SelectFlashcards.SelectCategory | src/pages/SelectFlashcardsPage.tsx:68-82 | A wholly selected category loses exactly its ids. Otherwise the result is the first-occurrence de-duplicated union, with existing ids first. |
| SelectFlashcards.DeselectCategoryKeepsOrder | src/pages/SelectFlashcardsPage.tsx:74 | Deselection distributes over concatenation, so other ids keep their order. |
| SelectFlashcards.SelectCategoryAppends | src/pages/SelectFlashcardsPage.tsx:77-80 | On a duplicate-free selection, the selection is kept as a prefix, followed by the category ids not yet selected. |
| SelectFlashcards.ToggleCategory | src/pages/SelectFlashcardsPage.tsx:84-94 | Exactly the given category changes membership. |
| SelectFlashcards.ToggleCategoryTwice | src/pages/SelectFlashcardsPage.tsx:84-94 | Toggling twice restores the set. |
| SelectFlashcards.CategoryOf | src/pages/SelectFlashcardsPage.tsx:103 | The category, or the non-empty 'Uncategorized' when it is empty. |
| SelectFlashcards.GroupOfMembers | src/pages/SelectFlashcardsPage.tsx:102-109 | A group holds exactly the words of its category. |
| SelectFlashcards.GroupOfIsFilter | src/pages/SelectFlashcardsPage.tsx:102-109 | A group is the list filtered by category, so list order is kept. |
| SelectFlashcards.GroupStep | src/pages/SelectFlashcardsPage.tsx:104-107 | One reduce step keeps the map and the key list in step with the words seen so far. |
| SelectFlashcards.InsertStringSorted | src/pages/SelectFlashcardsPage.tsx:113 | Insertion keeps a list sorted by JavaScript's default string order. |
| SelectFlashcards.SortStringsSorted | src/pages/SelectFlashcardsPage.tsx:113 | `keys.sort()` returns an ascending permutation of the keys. |
| SelectFlashcards.GroupByCategory | src/pages/SelectFlashcardsPage.tsx:101-109 | The reduce loop builds, under distinct keys, each category's non-empty word list, and every filtered word's category has an entry. |
| SelectFlashcards.GroupsFromSortedKeys | src/pages/SelectFlashcardsPage.tsx:111-117 | Groups copied out under the sorted keys form a grouping of the filtered words. |
| SelectFlashcards.GroupedWords | src/pages/SelectFlashcardsPage.tsx:100-118 | Categories are strictly ascending. Each group is exactly its category's filtered words in list order, and is non-empty. Every filtered word's category appears. |
| SelectFlashcards.GroupingPlacesEachWordOnce | src/pages/SelectFlashcardsPage.tsx:100-118 | Every filtered word lies in exactly one group. |
| SelectFlashcards.SelectionPage.constructor | src/pages/SelectFlashcardsPage.tsx:11-17 | The initial state: no words, no selection, filter "new", nothing expanded. |
| SelectFlashcards.SelectionPage.LoadWords | src/pages/SelectFlashcardsPage.tsx:19-38 | Nothing happens without a user. Otherwise the page stores the fetched words, or the error when the query throws. |
| SelectFlashcards.SelectionPage.HandleSelectWord | src/pages/SelectFlashcardsPage.tsx:40-48 | The selection becomes ToggleWord of the old selection. |
| SelectFlashcards.SelectionPage.HandleSelectAll | src/pages/SelectFlashcardsPage.tsx:57-66 | The selection becomes SelectAll. On a non-empty list that was not all selected, it becomes all selected. |
| SelectFlashcards.SelectionPage.HandleSelectCategory | src/pages/SelectFlashcardsPage.tsx:68-82 | The selection becomes SelectCategory of the old selection. |
| SelectFlashcards.SelectionPage.ToggleCategoryCollapse | src/pages/SelectFlashcardsPage.tsx:84-94 | The expanded set becomes ToggleCategory. |
| SelectFlashcards.SelectionPage.StartStudy | src/pages/SelectFlashcardsPage.tsx:120-128 | An empty selection does nothing. Otherwise the selection is stored and study starts. |
| SelectFlashcards.StudyUsesSelection | src/pages/SelectFlashcardsPage.tsx:126 | The stored selection, read back by the deck, gives exactly the selected pool words. |
| Collections.CollectionWords | src/pages/CollectionsPage.tsx:53-62 | With a selection, it returns exactly the words whose id the collection lists. It is empty with no selection or no words. |
| Collections.AvailableWords | src/pages/CollectionsPage.tsx:154-158 | With a selection, it returns exactly the words the collection does not list. It is empty with no selection. |
| Collections.CollectionAndAvailablePartition | src/pages/CollectionsPage.tsx:53-158 | The two lists split the word list as a multiset. |
| Collections.AddAvailableWord | src/pages/CollectionsPage.tsx:114-117 | Adding an available word keeps the id list duplicate-free, shows the word, and stops offering it. |
| Collections.ReplaceById | src/pages/CollectionsPage.tsx:119-121 | Only the collection with the updated id is replaced. The length is kept. |
| Collections.ReplaceByIdProperties | src/pages/CollectionsPage.tsx:119-121 | The ids stay in place. A second replacement under the same id wins. |
| Collections.WithoutCollection | src/pages/CollectionsPage.tsx:93 | It returns exactly the other collections. |
| Collections.CreatedCollection | src/services/vocabularyService.ts:129-157 | The new collection has the given id, no words and equal timestamps. The name is the trimmed name, or "New Collection" when that is blank, so it is never empty. The description is the trimmed description, an absent one becoming empty. |
| Collections.RemoveAgreesWithEffect | src/pages/CollectionsPage.tsx:137-147 | Filtering the shown words by id equals recomputing them from the shrunk id list. |
| Collections.ShownWithout | src/pages/CollectionsPage.tsx:147 | It returns exactly the shown words with a different id. |
| Collections.RemoveKeepsInSync | src/pages/CollectionsPage.tsx:137-147 | After a removal, the shown words equal what the effect computes for the updated collection. |
| Collections.CollectionsPage.constructor | src/pages/CollectionsPage.tsx:12-20 | The initial state: empty lists, no selection, empty form, and in step. |
| Collections.CollectionsPage.Load | src/pages/CollectionsPage.tsx:22-50 | The page stores the fetched collections and words and selects the first collection, or none. A failed load sets the error. |
| Collections.CollectionsPage.SyncCollectionWords | src/pages/CollectionsPage.tsx:53-62 | The shown words become CollectionWords of the selection. |
| Collections.CollectionsPage.HandleCreateCollection | src/pages/CollectionsPage.tsx:64-85 | Nothing happens without a user or with a blank name. On success, the new collection is appended and selected, and the form is cleared. On failure, the error is set. When nothing happens or the call fails, the form and its open flag are unchanged. |
| Collections.CollectionsPage.HandleDeleteCollection | src/pages/CollectionsPage.tsx:87-105 | The collection is removed and the selection becomes the first remaining collection, or none. On failure, the error is set. The creation form and its open flag are unchanged. |
| Collections.CollectionsPage.HandleAddWordToCollection | src/pages/CollectionsPage.tsx:107-128 | The id is appended to the selected collection, which replaces its namesake in the list. On failure, the error is set. The creation form and its open flag are unchanged. |
| Collections.CollectionsPage.ApplyRemoval | src/pages/CollectionsPage.tsx:137-147 | The page stores the selected collection without every occurrence of the id, replaces its namesake, and drops the word from the shown list. |
| Collections.CollectionsPage.HandleRemoveWordFromCollection | src/pages/CollectionsPage.tsx:130-152 | Nothing happens without a user or a selection. A failure sets the error. Otherwise the page applies the removal. The creation form and its open flag are unchanged. |
| AddWord.ExistingWords | src/pages/AddWordPage.tsx:28 | The list of lower-cased spellings, index by index. |
| AddWord.WordExists | src/pages/AddWordPage.tsx:39-43 | The duplicate check. BlankIsNeverDuplicate, WordExistsIgnoresCase, StoredWordIsDuplicate and SubmittedWordIsDuplicate state its contract. |
| AddWord.BlankIsNeverDuplicate | src/pages/AddWordPage.tsx:39-43 | Whitespace-only input is never reported as a duplicate. |
| AddWord.WordExistsIgnoresCase | src/pages/AddWordPage.tsx:40 | Inputs whose trimmed forms differ only in ASCII case get the same answer. |
| AddWord.StoredWordIsDuplicate | src/pages/AddWordPage.tsx:28-40 | A stored word typed again, in any case and with surrounding whitespace, is a duplicate. |
| AddWord.NewWord | src/pages/AddWordPage.tsx:75-85 | The record stores the trimmed word, meaning and example, and the part of speech as chosen. The new word has status new, level 0 and no reviews. A blank pronunciation is absent, otherwise it is the trimmed value. It has no dates and no category. |
| AddWord.NewWordIsConsistentAndDue | src/pages/AddWordPage.tsx:75-85 | A new word's status matches its level. It is due at any time and is reviewable. |
| AddWord.SubmittedWordIsDuplicate | src/pages/AddWordPage.tsx:99 | After the append, the submitted word in any case is a duplicate. |
| AddWord.AddWordForm.constructor | src/pages/AddWordPage.tsx:11-20 | The initial form: empty fields, part of speech "noun", no flags or messages, and in step. |
| AddWord.AddWordForm.LoadExistingWords | src/pages/AddWordPage.tsx:22-35 | Without a user, or when the query fails, the list stays. Otherwise it becomes the lower-cased spellings. The form fields, the duplicate flag, the error, the success message and the written words are unchanged. |
| AddWord.AddWordForm.CheckWordExists | src/pages/AddWordPage.tsx:37-44 | The flag is the duplicate check on the current input. The form fields, the list, the error, the success message and the written words are unchanged. |
| AddWord.AddWordForm.RecordAddedWord | src/pages/AddWordPage.tsx:75-99 | The record is written, the message quotes the input as typed, and the trimmed lower-cased word is appended. |
| AddWord.AddWordForm.ResetForm | src/pages/AddWordPage.tsx:92-96 | The fields return to their initial values. |
| AddWord.AddWordForm.HandleSubmit | src/pages/AddWordPage.tsx:58-109 | There is an error per case. A word is written only with a user, without the flag and when the call returns. Then the success message quotes the word as typed, every field is reset and the trimmed lower-cased word joins the existing words. Otherwise the fields, the existing words and the message are unchanged. With the flag in step, an existing word is never written again, and the flag stays in step. |
| Home.ComputeStats | src/pages/HomePage.tsx:29-34 | total is the list length. Each status counter is the size of that status's filter. |
| Home.StatusCountsSumToTotal | src/pages/HomePage.tsx:29-34 | new + learning + mastered = total. |
| Home.StatusCountIsMultiplicity | src/pages/HomePage.tsx:31-33 | A word counts under its own status, as often as it occurs, and under no other. |
| Home.HomePage.constructor | src/pages/HomePage.tsx:10-16 | All counters start at 0, with loading on. |
| Home.HomePage.LoadData | src/pages/HomePage.tsx:18-42 | Loading ends. The counters are recomputed only with a user and a successful query. |
| Register.ValidatePassword | src/pages/RegisterPage.tsx:23-33 | No error iff length ≥ 6 and the two entries match. A short password gives "too short" whatever the confirmation. Otherwise a mismatch gives "do not match". |
| Register.FailureMessage | src/pages/RegisterPage.tsx:52 | The error's own message when non-empty, otherwise the fallback. Never empty. |
| Register.RegisterForm.constructor | src/pages/RegisterPage.tsx:6-11 | The initial form: empty fields, no error, no request. |
| Register.RegisterForm.HandleSubmit | src/pages/RegisterPage.tsx:35-57 | A validation error is shown and nothing is sent. Otherwise one request is sent, then the page navigates home or shows the failure message. A request is sent only for a valid password. |
| ToeicData.RemoveTag | python.py:13 | The `re.sub` of the final tag and the whitespace before it. CleanTaggedWord, CleanTaggedBeforeLineFeed and CleanUntaggedWord state its effect. |
| ToeicData.CleanWord | python.py:13 | The tag removal followed by `.strip()`. The Clean lemmas below state its contract on tagged and untagged entries and on the data's examples. |
| ToeicData.TagLength | python.py:13 | The tag length is at most the string length. |
| ToeicData.TagLengthIsFinalTag | python.py:13 | A recognised tag is 3 or 5 characters long, and the string then ends in "(" + one of the four tags + ")". No other tag length occurs. |
| ToeicData.TagLengthOfTagged | python.py:13 | A word ending in one of the four tags is recognised, with the tag's length. |
| ToeicData.CleanTaggedWord | python.py:13 | The tag and the whitespace before it go. The rest is stripped. |
| ToeicData.CleanTaggedBeforeLineFeed | python.py:13 | `$` also matches before a final line feed: the tag goes and the strip removes the line feed. |
| ToeicData.CleanUntaggedWord | python.py:13 | An entry without a final tag, also before a trailing line feed, is only stripped. |
| ToeicData.CleanNounExample | python.py:8 | "agreement (n)" becomes "agreement". |
| ToeicData.CleanAdjectiveExample | python.py:8 | "binding (adj)" becomes "binding". |
| ToeicData.CleanUntaggedExamples | python.py:476-619 | "complimentary" and "implant" are unchanged. |
| ToeicData.CleanHyphenatedExample | python.py:489 | "high-speed" is unchanged. |
| ToeicData.CleanRemovesOneTag | python.py:13 | Only the final tag goes: "take (n) (v)" becomes "take (n)". |
| ToeicData.CleanKeepsOtherBrackets | python.py:13 | "take (noun)" is unchanged. |
| ToeicData.TopicItemsLength | python.py:12-18 | A topic yields one record per word. |
| ToeicData.TopicItemsAt | python.py:12-18 | Record i pairs the cleaned `words[i]` with `pronounce[i]` and `meaning[i]`. |
| ToeicData.AllItemsLength | python.py:5-669 | The output length is the sum of the word-list lengths. |
| ToeicData.AllItemsOrder | python.py:12-669 | Record i of topic k sits after the records of all earlier topics, at index (words before k) + i. |
| ToeicData.AppendTopic | python.py:12-18 | One topic's loop appends its records in order, or fails at the shorter list's length. |
| ToeicData.BuildVocabulary | python.py:5-669 | It succeeds iff every topic is zippable, and then returns the records in topic then index order. Otherwise it reports the first bad topic, at the index where reading fails. |
| Sequences.Filter | src/pages/SelectFlashcardsPage.tsx:97 | `filter`: membership and multiplicity are exactly those of the passing elements. |
| Sequences.FilterAppend | src/pages/SelectFlashcardsPage.tsx:97 | Filtering distributes over concatenation, so relative order is kept. |
| Sequences.Remove | src/pages/SelectFlashcardsPage.tsx:43 | `filter(y => y !== x)` drops every x and keeps every other count. |
| Sequences.Dedupe | src/pages/SelectFlashcardsPage.tsx:78-79 | `Array.from(new Set(s))` has each value once, and the same values as s. |
| Sequences.DedupeFromAppend | src/pages/SelectFlashcardsPage.tsx:78-79 | De-duplicating a concatenation keeps the first part's survivors first. |
| Text.JsTrim | src/pages/AddWordPage.tsx:39 | JavaScript `trim` over the ASCII whitespace. TrimIsSlice, TrimEmptyIff and TrimIdempotent state its contract. |
| Text.PyStrip | python.py:13 | Python `strip` over the ASCII whitespace, with the same lemmas as JsTrim. |
| Text.TrimIsSlice | src/pages/AddWordPage.tsx:39 | The trimmed string is a slice of the input with whitespace runs cut from both ends, and it neither starts nor ends with whitespace. |
| Text.TrimEmptyIff | src/pages/AddWordPage.tsx:39 | It trims to empty iff it is all whitespace. |
| Text.TrimIdempotent | src/pages/AddWordPage.tsx:40 | Trimming twice is trimming once. |
| Text.ToLower | src/pages/AddWordPage.tsx:40 | It keeps the length and lower-cases each ASCII letter. |
| Text.ToLowerIdempotent | src/pages/AddWordPage.tsx:40 | Lower-casing twice is lower-casing once. |
| Text.ToLowerIgnoresCase | src/pages/AddWordPage.tsx:40 | Two strings lower-case alike iff they differ only in ASCII letter case. |

## Left out

- Database and authentication I/O (Firestore, Firebase auth) are out of scope. Each awaited call appears as its outcome: a boolean for "returned normally", or an `Option` for fetched data. The service functions that only read or write documents are not part of this model.
- Clocks are out of scope. `new Date()` and `Date.now()` are the parameter `now`, in milliseconds, and calendar days are UTC day numbers. Local time, DST and `setDate`/`setHours` are not modelled.
- Randomness is out of scope. `Math.random` draws are parameters. The `Math.random() - 0.5` sorts are claimed only to permute.
- Floating point is out of scope. The ease factors are exact tenths, and the progress-bar and quiz percentages are not modelled.
- Timers and effect ordering are out of scope. `setTimeout`, `setInterval`, the study-time timer and its stats write, and the success-message clearing are not modelled. Effects are separate methods that the caller runs.
- `isLoading` and `isSubmitting` flags are not modelled, except the home page's flag.
- `sessionStorage` and `JSON.parse` are not modelled. The stored selection is an optional id list.
- Several helpers are called but not defined in the sources: `updateWordMasteryWithPerformance`, `removeFromSelectedFlashcards`, `removeMasteredWordFromSession`, `resetSession`, `importToeicVocabulary` and `setVocabularyRefreshCallback`. Each is an outcome flag with no other effect.
- FlashcardStudy.StudySession.HandleSkip does not model the deck changes made by the two session-removal helpers, for the same reason.
- Navigation and the registration page's redirect effect are not modelled.
- `handleFlipCard` on the selection page and the status-filter buttons are UI toggles and are not modelled.
- Unicode is out of scope. Trimming, `strip`, `\s` and `toLowerCase` are limited to ASCII, and string order is by code unit.
- In `python.py`, the JSON file write and the final `print` (lines 672-676) are not modelled. The fifty literal topic lists are the parameter `topics`, and the fifty identical loops are one loop over them.
- AddWord.AddWordForm.HandleSubmit does not model a blank-word check, because the handler has none. The form's `required` attribute is UI only.
- Collections.CollectionsPage.HandleAddWordToCollection appends the id locally, as the page does. It does not model the service's `arrayUnion`, which de-duplicates on the server.
- SelectFlashcards.GroupedWords returns the groups in sorted order, as the second reduce builds them. The page then lists them with `Object.entries` (src/pages/SelectFlashcardsPage.tsx:232), which puts integer-like category names first in numeric order; that display order is not modelled. A category named after an `Object.prototype` member such as "constructor" finds that member instead of a missing entry, so the push at src/pages/SelectFlashcardsPage.tsx:104-107 would throw; the model treats every category as a fresh key.
- Quiz.QuizSession.Load does not reset the index, score or answers, as the effect does not. A reload in the middle of a quiz can therefore leave the index past a shorter list of questions; the session invariant is promised only when the questions are unchanged or the index is still in range.
- Collections.CollectionsPage.HandleRemoveWordFromCollection does not state that the shown words stay in step. The lemma Collections.RemoveKeepsInSync proves this about the same update.
