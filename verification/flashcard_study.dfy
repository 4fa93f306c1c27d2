/** The study session page (src/pages/FlashcardStudyPage.tsx): the grade
    handlers with their level changes and completion counters, the swipe count
    that hides the instructions, the initialisation of the card total, and the
    card number shown. Each handler is one atomic step; the awaited service
    calls are represented by whether they returned normally. */
module FlashcardStudy {
  import opened VocabularyTypes
  import opened Flashcards
  import SpacedRepetition

  /** The level shown after "difficult": one down, not below 0. */
  function DifficultLevel(level: int): int
  {
    if 0 > level - 1 then 0 else level - 1
  }

  /** The level shown after "known": one up, not above 5. */
  function KnownLevel(level: int): int
  {
    if 5 < level + 1 then 5 else level + 1
  }

  /** The level shown after "skip": mastered. */
  const SkipLevel: int := 5

  /** The two moving grades are exactly the scheduler's mastery step for a
      wrong and a right answer, clamped at 0 and at 5; skipping jumps to the top whatever the level,
      which is never below what "known" gives for a level in [0, 5]. */
  lemma GradeLevelsMatchScheduler(level: int)
    ensures DifficultLevel(level) == SpacedRepetition.MasteryAdjustment(false, level)
    ensures KnownLevel(level) == SpacedRepetition.MasteryAdjustment(true, level)
    ensures level <= 0 ==> DifficultLevel(level) == 0
    ensures level >= 5 ==> KnownLevel(level) == 5
    ensures 0 <= level <= 5 ==> DifficultLevel(level) <= KnownLevel(level) <= SkipLevel
  {
  }

  /** The page state. */
  class StudySession {
    const deck: FlashcardDeck
    var totalCards: int
    var difficultCards: int
    var knownCards: int
    var skippedCards: int
    var isSessionCompleted: bool
    var showInstructions: bool
    var swipeCount: int

    constructor(deck: FlashcardDeck)
      ensures this.deck == deck
      ensures totalCards == 0 && difficultCards == 0 && knownCards == 0 && skippedCards == 0
      ensures !isSessionCompleted && showInstructions && swipeCount == 0
      ensures Valid()
    {
      this.deck := deck;
      totalCards := 0;
      difficultCards := 0;
      knownCards := 0;
      skippedCards := 0;
      isSessionCompleted := false;
      showInstructions := true;
      swipeCount := 0;
    }

    /** Counters never go negative, and three swipes hide the instructions. */
    predicate Valid()
      reads this
    {
      && 0 <= totalCards && 0 <= difficultCards && 0 <= knownCards && 0 <= skippedCards
      && 0 <= swipeCount
      && (swipeCount >= 3 ==> !showInstructions)
    }

    /** Cards graded so far. */
    function Processed(): int
      reads this
    {
      difficultCards + knownCards + skippedCards
    }

    /** The card number shown: min(processed + 1, totalCards). It never
        exceeds the total, and it is one past the graded cards until the total
        is reached. */
    function CardNumber(): (n: int)
      reads this
      ensures n <= totalCards && n <= Processed() + 1
      ensures n == totalCards || n == Processed() + 1
    {
      if Processed() + 1 < totalCards then Processed() + 1 else totalCards
    }

    /** The effect that fixes the total once a non-empty deck is loaded. */
    method InitTotalCards()
      requires Valid()
      modifies this
      ensures totalCards == if |deck.flashcards| > 0 && old(totalCards) == 0 then |deck.flashcards| else old(totalCards)
      ensures difficultCards == old(difficultCards) && knownCards == old(knownCards) && skippedCards == old(skippedCards)
      ensures isSessionCompleted == old(isSessionCompleted) && showInstructions == old(showInstructions)
      ensures swipeCount == old(swipeCount)
      ensures Valid()
    {
      if |deck.flashcards| > 0 && totalCards == 0 {
        totalCards := |deck.flashcards|;
      }
    }

    /** handleSwipeAction: counts the swipe and hides the instructions from
        the third one on. */
    method HandleSwipeAction()
      requires Valid()
      modifies this
      ensures swipeCount == old(swipeCount) + 1
      ensures showInstructions == (old(showInstructions) && swipeCount < 3)
      ensures totalCards == old(totalCards) && Processed() == old(Processed())
      ensures difficultCards == old(difficultCards) && knownCards == old(knownCards) && skippedCards == old(skippedCards)
      ensures isSessionCompleted == old(isSessionCompleted)
      ensures Valid()
    {
      var newSwipeCount := swipeCount + 1;
      swipeCount := newSwipeCount;
      if newSwipeCount >= 3 && showInstructions {
        showInstructions := false;
      }
    }

    /** The completion check after difficult or known: the session ends when
        all cards are graded (or the deck is empty); otherwise the next card
        is shown. */
    method FinishOrAdvance()
      modifies this, deck
      ensures isSessionCompleted == (old(isSessionCompleted) || Processed() >= totalCards || |deck.flashcards| == 0)
      ensures deck.currentIndex == if Processed() >= totalCards || |deck.flashcards| == 0 then old(deck.currentIndex)
        else if old(deck.currentIndex) < |deck.flashcards| - 1 then old(deck.currentIndex) + 1 else old(deck.currentIndex)
      ensures deck.flashcards == old(deck.flashcards) && deck.flippedState == old(deck.flippedState)
      ensures deck.error == old(deck.error)
      ensures totalCards == old(totalCards) && difficultCards == old(difficultCards)
      ensures knownCards == old(knownCards) && skippedCards == old(skippedCards)
      ensures showInstructions == old(showInstructions) && swipeCount == old(swipeCount)
    {
      if Processed() >= totalCards || |deck.flashcards| == 0 {
        isSessionCompleted := true;
      } else {
        deck.NextCard();
      }
    }

    /** handleDifficult: without a user nothing happens. Otherwise the swipe is
        counted; if the service call returns normally the card drops one level,
        the difficult counter grows by one and the session completes or moves
        on; if it throws, the error is swallowed there. */
    method HandleDifficult(loggedIn: bool, word: VocabularyWord, serviceOk: bool)
      requires Valid()
      modifies this, deck
      ensures !loggedIn ==> swipeCount == old(swipeCount) && deck.flashcards == old(deck.flashcards)
      ensures loggedIn ==> swipeCount == old(swipeCount) + 1
      ensures difficultCards == old(difficultCards) + (if loggedIn && serviceOk then 1 else 0)
      ensures knownCards == old(knownCards) && skippedCards == old(skippedCards) && totalCards == old(totalCards)
      ensures deck.flashcards == if loggedIn && serviceOk
        then MarkLevel(old(deck.flashcards), word.id, DifficultLevel(word.masteryLevel))
        else old(deck.flashcards)
      ensures isSessionCompleted == (old(isSessionCompleted)
        || (loggedIn && serviceOk && (Processed() >= totalCards || |deck.flashcards| == 0)))
      ensures deck.currentIndex ==
        if loggedIn && serviceOk && Processed() < totalCards && |deck.flashcards| > 0
           && old(deck.currentIndex) < |deck.flashcards| - 1
        then old(deck.currentIndex) + 1 else old(deck.currentIndex)
      ensures showInstructions == (old(showInstructions) && (!loggedIn || swipeCount < 3))
      ensures deck.flippedState == old(deck.flippedState) && deck.error == old(deck.error)
      ensures Valid()
    {
      if !loggedIn {
        return;
      }
      HandleSwipeAction();
      if !serviceOk {
        return;
      }
      deck.MarkCard(word.id, DifficultLevel(word.masteryLevel));
      difficultCards := difficultCards + 1;
      FinishOrAdvance();
    }

    /** handleKnown: as handleDifficult, with the card one level up and the
        known counter growing. */
    method HandleKnown(loggedIn: bool, word: VocabularyWord, serviceOk: bool)
      requires Valid()
      modifies this, deck
      ensures !loggedIn ==> swipeCount == old(swipeCount) && deck.flashcards == old(deck.flashcards)
      ensures loggedIn ==> swipeCount == old(swipeCount) + 1
      ensures knownCards == old(knownCards) + (if loggedIn && serviceOk then 1 else 0)
      ensures difficultCards == old(difficultCards) && skippedCards == old(skippedCards) && totalCards == old(totalCards)
      ensures deck.flashcards == if loggedIn && serviceOk
        then MarkLevel(old(deck.flashcards), word.id, KnownLevel(word.masteryLevel))
        else old(deck.flashcards)
      ensures isSessionCompleted == (old(isSessionCompleted)
        || (loggedIn && serviceOk && (Processed() >= totalCards || |deck.flashcards| == 0)))
      ensures deck.currentIndex ==
        if loggedIn && serviceOk && Processed() < totalCards && |deck.flashcards| > 0
           && old(deck.currentIndex) < |deck.flashcards| - 1
        then old(deck.currentIndex) + 1 else old(deck.currentIndex)
      ensures showInstructions == (old(showInstructions) && (!loggedIn || swipeCount < 3))
      ensures deck.flippedState == old(deck.flippedState) && deck.error == old(deck.error)
      ensures Valid()
    {
      if !loggedIn {
        return;
      }
      HandleSwipeAction();
      if !serviceOk {
        return;
      }
      deck.MarkCard(word.id, KnownLevel(word.masteryLevel));
      knownCards := knownCards + 1;
      FinishOrAdvance();
    }

    /** handleSkip: the card goes to level 5 once the service call returns; the
        skipped counter grows only when the two session-removal calls that
        follow also return, and the cursor never moves here. */
    method HandleSkip(loggedIn: bool, word: VocabularyWord, serviceOk: bool, removalOk: bool)
      requires Valid()
      modifies this, deck
      ensures !loggedIn ==> swipeCount == old(swipeCount) && deck.flashcards == old(deck.flashcards)
      ensures loggedIn ==> swipeCount == old(swipeCount) + 1
      ensures skippedCards == old(skippedCards) + (if loggedIn && serviceOk && removalOk then 1 else 0)
      ensures difficultCards == old(difficultCards) && knownCards == old(knownCards) && totalCards == old(totalCards)
      ensures deck.flashcards == if loggedIn && serviceOk
        then MarkLevel(old(deck.flashcards), word.id, SkipLevel)
        else old(deck.flashcards)
      ensures deck.currentIndex == old(deck.currentIndex)
      ensures isSessionCompleted == (old(isSessionCompleted)
        || (loggedIn && serviceOk && removalOk && Processed() >= totalCards))
      ensures showInstructions == (old(showInstructions) && (!loggedIn || swipeCount < 3))
      ensures deck.flippedState == old(deck.flippedState) && deck.error == old(deck.error)
      ensures Valid()
    {
      if !loggedIn {
        return;
      }
      HandleSwipeAction();
      if !serviceOk {
        return;
      }
      deck.MarkCard(word.id, SkipLevel);
      if !removalOk {
        return;
      }
      skippedCards := skippedCards + 1;
      if Processed() >= totalCards {
        isSessionCompleted := true;
      }
    }

    /** "Study Again": counters back to zero, the instructions shown again. */
    method StudyAgain()
      modifies this
      ensures !isSessionCompleted
      ensures totalCards == 0 && difficultCards == 0 && knownCards == 0 && skippedCards == 0
      ensures showInstructions && swipeCount == 0
      ensures Valid()
    {
      isSessionCompleted := false;
      totalCards := 0;
      difficultCards := 0;
      knownCards := 0;
      skippedCards := 0;
      showInstructions := true;
      swipeCount := 0;
    }
  }
}
