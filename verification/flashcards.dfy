/** The flashcard deck hook (src/hooks/useFlashcards.tsx): the Fisher-Yates
    shuffle, the choice of the deck when it is loaded, and the deck state
    (`flashcards`, `currentIndex`, `flippedState`, `error`) with the handlers
    that change it. The word fetch, the stored selection and `Math.random` are
    parameters. */
module Flashcards {
  import opened VocabularyTypes
  import opened Sequences
  import opened SpacedRepetition

  const LoginRequired: string := "You must be logged in to study flashcards."
  const NoFlashcards: string := "No flashcards available. Add some words to get started."
  const LoadFailed: string := "Failed to load flashcards. Please try again."

  /** `Math.floor(r * n)` for a draw `r` of `Math.random()`: an index below `n`. */
  function Pick(r: real, n: nat): (j: int)
    requires 0.0 <= r < 1.0 && n > 0
    ensures 0 <= j < n
  {
    assert r * n as real < n as real by {
      assert (1.0 - r) * n as real > 0.0;
    }
    (r * n as real).Floor
  }

  /** shuffleArray: a copy of `input` shuffled in place by Fisher-Yates, going
      down from the last cell and swapping cell `i` with cell
      floor(draws[i] * (i + 1)). The result is a permutation of the input. */
  method ShuffleArray<T>(input: seq<T>, draws: seq<real>) returns (shuffled: seq<T>)
    requires |draws| == |input|
    requires forall k :: 0 <= k < |draws| ==> 0.0 <= draws[k] < 1.0
    ensures |shuffled| == |input|
    ensures multiset(shuffled) == multiset(input)
  {
    var a := new T[|input|](k requires 0 <= k < |input| => input[k]);
    assert a[..] == input;
    var i := a.Length - 1;
    while i > 0
      invariant -1 <= i < a.Length
      invariant multiset(a[..]) == multiset(input)
    {
      var j := Pick(draws[i], i + 1);
      a[i], a[j] := a[j], a[i];
      i := i - 1;
    }
    shuffled := a[..];
  }

  /** The selection stored by the selection page, parsed: `None` when nothing
      is stored, the text does not parse, or it is not an array. */
  type StoredSelection = Option<seq<string>>

  /** The pool words whose id is in `ids`, in pool order. */
  function SelectedWords(pool: seq<VocabularyWord>, ids: seq<string>): (r: seq<VocabularyWord>)
    ensures forall w :: w in r <==> w in pool && w.id in ids
  {
    Filter(pool, (w: VocabularyWord) => w.id in ids)
  }

  /** fetchFlashcards: the deck, or the error message shown instead. `fetched`
      is the outcome of the word query (`None` when it throws). A non-empty
      stored selection that matches at least one word gives exactly those
      words in pool order; otherwise the whole pool goes through the review
      prioritiser. */
  function LoadDeck(loggedIn: bool, fetched: Option<seq<VocabularyWord>>, selection: StoredSelection, now: int)
    : (r: Result<seq<VocabularyWord>, string>)
    ensures !loggedIn ==> r == Failure(LoginRequired)
    ensures loggedIn && fetched.None? ==> r == Failure(LoadFailed)
    ensures loggedIn && fetched == Some([]) ==> r == Failure(NoFlashcards)
    ensures r.Failure? <==> !loggedIn || fetched.None? || fetched == Some([])
    ensures r.Success? && selection.Some? && selection.value != []
            && (exists w :: w in fetched.value && w.id in selection.value) ==>
              && (forall w :: w in r.value <==> w in fetched.value && w.id in selection.value)
              && r.value == SelectedWords(fetched.value, selection.value)
    ensures r.Success? && (selection.None? || selection.value == []
            || (forall w :: w in fetched.value ==> w.id !in selection.value)) ==>
              r.value == PrioritizeWordsForReview(fetched.value, now)
  {
    if !loggedIn then Failure(LoginRequired)
    else if fetched.None? then Failure(LoadFailed)
    else
      var allWords := fetched.value;
      if |allWords| == 0 then Failure(NoFlashcards)
      else if selection.Some? && |selection.value| > 0 && |SelectedWords(allWords, selection.value)| > 0 then
        Success(SelectedWords(allWords, selection.value))
      else
        Success(PrioritizeWordsForReview(allWords, now))
  }

  /** A loaded deck is empty only when the prioritiser dropped every word, that
      is, every fetched word is at level 5 and not due. */
  lemma LoadedDeckEmpty(loggedIn: bool, fetched: Option<seq<VocabularyWord>>, selection: StoredSelection, now: int)
    requires LoadDeck(loggedIn, fetched, selection, now) == Success([])
    ensures fetched.Some? && fetched.value != []
    ensures forall w :: w in fetched.value ==> w.masteryLevel >= 5 && !IsDue(w, now)
  {
    var words := fetched.value;
    if selection.Some? && |selection.value| > 0 && |SelectedWords(words, selection.value)| > 0 {
    } else {
      PrioritizeKeepsReviewable(words, now);
    }
  }

  /** The cards after `markCard(id, level)`: every card with that id gets the
      new level, everything else is kept. */
  function MarkLevel(cards: seq<VocabularyWord>, id: string, level: int): (r: seq<VocabularyWord>)
    ensures |r| == |cards|
    ensures forall i :: 0 <= i < |cards| ==>
      r[i] == if cards[i].id == id then cards[i].(masteryLevel := level) else cards[i]
  {
    if cards == [] then []
    else
      [if cards[0].id == id then cards[0].(masteryLevel := level) else cards[0]]
      + MarkLevel(cards[1..], id, level)
  }

  /** Marking keeps the ids in place, and marking twice keeps the last level. */
  lemma MarkLevelProperties(cards: seq<VocabularyWord>, id: string, l1: int, l2: int)
    ensures Ids(MarkLevel(cards, id, l1)) == Ids(cards)
    ensures MarkLevel(MarkLevel(cards, id, l1), id, l2) == MarkLevel(cards, id, l2)
  {
  }

  /** The state of the hook. */
  class FlashcardDeck {
    var flashcards: seq<VocabularyWord>
    var currentIndex: int
    var flippedState: map<string, bool>
    var error: Option<string>

    /** The hook's initial state. */
    constructor()
      ensures flashcards == [] && currentIndex == 0 && flippedState == map[] && error == None
    {
      flashcards := [];
      currentIndex := 0;
      flippedState := map[];
      error := None;
    }

    /** The cursor points at a card, or at 0 in an empty deck. */
    predicate IndexInRange()
      reads this
    {
      0 <= currentIndex && (flashcards == [] || currentIndex < |flashcards|)
    }

    /** `currentWord`: `flashcards[currentIndex]`, absent out of range. */
    function CurrentWord(): (w: Option<VocabularyWord>)
      reads this
      ensures w.Some? <==> 0 <= currentIndex < |flashcards|
      ensures w.Some? ==> w.value in flashcards
    {
      if 0 <= currentIndex < |flashcards| then Some(flashcards[currentIndex]) else None
    }

    /** `isFlipped(id)`: the stored flag, false for an id never flipped. */
    function IsFlipped(id: string): (b: bool)
      reads this
      ensures b <==> id in flippedState && flippedState[id]
    {
      id in flippedState && flippedState[id]
    }

    /** The loading effect: stores the deck or the error message. The cursor
        and the flip flags are left as they were. */
    method Load(loggedIn: bool, fetched: Option<seq<VocabularyWord>>, selection: StoredSelection, now: int)
      modifies this
      ensures LoadDeck(loggedIn, fetched, selection, now).Success? ==>
        flashcards == LoadDeck(loggedIn, fetched, selection, now).value && error == old(error)
      ensures LoadDeck(loggedIn, fetched, selection, now).Failure? ==>
        flashcards == old(flashcards) && error == Some(LoadDeck(loggedIn, fetched, selection, now).error)
      ensures currentIndex == old(currentIndex) && flippedState == old(flippedState)
    {
      match LoadDeck(loggedIn, fetched, selection, now)
      case Success(deck) => flashcards := deck;
      case Failure(message) => error := Some(message);
    }

    /** nextCard: one step forward unless at the last card. */
    method NextCard()
      modifies this
      ensures currentIndex == if old(currentIndex) < |flashcards| - 1 then old(currentIndex) + 1 else old(currentIndex)
      ensures old(IndexInRange()) ==> IndexInRange()
      ensures flashcards == old(flashcards) && flippedState == old(flippedState) && error == old(error)
    {
      if currentIndex < |flashcards| - 1 {
        currentIndex := currentIndex + 1;
      }
    }

    /** prevCard: one step back unless at the first card. */
    method PrevCard()
      modifies this
      ensures currentIndex == if old(currentIndex) > 0 then old(currentIndex) - 1 else old(currentIndex)
      ensures old(IndexInRange()) ==> IndexInRange()
      ensures flashcards == old(flashcards) && flippedState == old(flippedState) && error == old(error)
    {
      if currentIndex > 0 {
        currentIndex := currentIndex - 1;
      }
    }

    /** flipCard: toggles the flag of `id` and of no other id. */
    method FlipCard(id: string)
      modifies this
      ensures IsFlipped(id) == !old(IsFlipped(id))
      ensures forall other :: other != id ==> IsFlipped(other) == old(IsFlipped(other))
      ensures flippedState == old(flippedState)[id := !old(IsFlipped(id))]
      ensures flashcards == old(flashcards) && currentIndex == old(currentIndex) && error == old(error)
    {
      flippedState := flippedState[id := !IsFlipped(id)];
    }

    /** shuffleCards: a permutation of the deck, the cursor back at 0 and every
        card face down. */
    method ShuffleCards(draws: seq<real>)
      requires |draws| == |flashcards|
      requires forall k :: 0 <= k < |draws| ==> 0.0 <= draws[k] < 1.0
      modifies this
      ensures |flashcards| == |old(flashcards)| && multiset(flashcards) == multiset(old(flashcards))
      ensures currentIndex == 0 && flippedState == map[] && IndexInRange()
      ensures forall id :: !IsFlipped(id)
      ensures error == old(error)
    {
      flashcards := ShuffleArray(flashcards, draws);
      currentIndex := 0;
      flippedState := map[];
    }

    /** markCard: the cards with `id` take the new level; the deck keeps its
        length and order. */
    method MarkCard(id: string, newMasteryLevel: int)
      modifies this
      ensures flashcards == MarkLevel(old(flashcards), id, newMasteryLevel)
      ensures currentIndex == old(currentIndex) && flippedState == old(flippedState) && error == old(error)
      ensures old(IndexInRange()) ==> IndexInRange()
    {
      flashcards := MarkLevel(flashcards, id, newMasteryLevel);
    }
  }
}
