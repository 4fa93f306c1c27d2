/** The add-word page (src/pages/AddWordPage.tsx): the list of existing words
    in lower case, the duplicate check that runs as the user types, the word
    record the form submits, and the submit handler. The awaited calls to the
    service are represented by their outcome; the id the service gives the new
    document is a parameter. */
module AddWord {
  import opened VocabularyTypes
  import opened Text
  import VocabularyService
  import SpacedRepetition

  const NotLoggedIn: string := "You must be logged in to add words."
  const AlreadyExists: string := "This word already exists in your vocabulary."
  const AddFailed: string := "Failed to add word. Please try again."
  const DefaultPartOfSpeech: string := "noun"

  /** The success message, quoting the input as typed. */
  function AddedMessage(word: string): string
  {
    "\"" + word + "\" has been added to your vocabulary."
  }

  /** The lower-cased spelling of every stored word, in order. */
  function ExistingWords(words: seq<VocabularyWord>): (r: seq<string>)
    ensures |r| == |words|
    ensures forall i :: 0 <= i < |words| ==> r[i] == ToLower(words[i].word)
  {
    if words == [] then [] else [ToLower(words[0].word)] + ExistingWords(words[1..])
  }

  /** The duplicate check: the trimmed input, lower-cased, is in the list; an
      input that trims to nothing is never a duplicate. */
  function WordExists(word: string, existing: seq<string>): bool
  {
    if JsTrim(word) != [] then ToLower(JsTrim(word)) in existing else false
  }

  /** Input made only of whitespace is never reported as a duplicate, whatever
      the list holds. */
  lemma BlankIsNeverDuplicate(word: string, existing: seq<string>)
    requires AllIn(word, JsWhitespace)
    ensures !WordExists(word, existing)
  {
    TrimEmptyIff(word, JsWhitespace);
  }

  /** The check ignores ASCII letter case: two inputs whose trimmed forms
      differ only in case are both duplicates or neither is. */
  lemma WordExistsIgnoresCase(a: string, b: string, existing: seq<string>)
    requires SameIgnoringCase(JsTrim(a), JsTrim(b))
    ensures WordExists(a, existing) == WordExists(b, existing)
  {
    ToLowerIgnoresCase(JsTrim(a), JsTrim(b));
  }

  /** A stored word typed again, in any letter case and with any surrounding
      whitespace, is reported as a duplicate. */
  lemma StoredWordIsDuplicate(words: seq<VocabularyWord>, i: nat, typed: string)
    requires i < |words|
    requires JsTrim(words[i].word) == words[i].word && words[i].word != []
    requires SameIgnoringCase(JsTrim(typed), words[i].word)
    ensures WordExists(typed, ExistingWords(words))
  {
    ToLowerIgnoresCase(JsTrim(typed), words[i].word);
    assert ExistingWords(words)[i] == ToLower(words[i].word);
  }

  /** The record the form submits for a new word: trimmed fields, a blank
      pronunciation left out, status "new", level 0, no reviews, no dates and
      no category. */
  function NewWord(id: string, word: string, partOfSpeech: string, pronunciation: string,
                   meaning: string, example: string): (w: VocabularyWord)
    ensures w.id == id && w.partOfSpeech == partOfSpeech
    ensures w.word == JsTrim(word) && w.meaning == JsTrim(meaning) && w.example == JsTrim(example)
    ensures w.status == New && w.masteryLevel == 0 && w.timesReviewed == 0 && w.timesCorrect == 0
    ensures w.pronunciation.None? <==> JsTrim(pronunciation) == []
    ensures w.pronunciation.Some? ==> w.pronunciation.value == JsTrim(pronunciation)
    ensures w.lastReviewed.None? && w.nextReviewDate.None? && w.category == []
  {
    VocabularyWord(id, JsTrim(word), partOfSpeech,
                   if JsTrim(pronunciation) != [] then Some(JsTrim(pronunciation)) else None,
                   [], JsTrim(meaning), JsTrim(example), New, 0, None, None, 0, 0)
  }

  /** A new word's status is the one its level calls for, it is due for
      review at any time, and it is offered for study. */
  lemma NewWordIsConsistentAndDue(id: string, word: string, partOfSpeech: string, pronunciation: string,
                                  meaning: string, example: string, now: int)
    ensures var w := NewWord(id, word, partOfSpeech, pronunciation, meaning, example);
      && VocabularyService.StatusMatchesLevel(w)
      && SpacedRepetition.IsDue(w, now)
      && SpacedRepetition.Reviewable(w, now)
  {
  }

  /** Once a submitted word's lower-cased trimmed form is appended to the
      list, typing it again in any case is reported as a duplicate. */
  lemma SubmittedWordIsDuplicate(word: string, typed: string, existing: seq<string>)
    requires JsTrim(word) != []
    requires SameIgnoringCase(JsTrim(typed), JsTrim(word))
    ensures WordExists(typed, existing + [ToLower(JsTrim(word))])
  {
    ToLowerIgnoresCase(JsTrim(typed), JsTrim(word));
    var l := existing + [ToLower(JsTrim(word))];
    assert l[|existing|] == ToLower(JsTrim(word));
  }

  /** The page state; `added` records the words written through the service. */
  class AddWordForm {
    var word: string
    var partOfSpeech: string
    var pronunciation: string
    var meaning: string
    var example: string
    var existingWords: seq<string>
    var wordExists: bool
    var error: Option<string>
    var successMessage: Option<string>
    var added: seq<VocabularyWord>

    constructor()
      ensures word == [] && partOfSpeech == DefaultPartOfSpeech && pronunciation == []
      ensures meaning == [] && example == [] && existingWords == []
      ensures !wordExists && error == None && successMessage == None && added == []
      ensures InSync()
    {
      word := [];
      partOfSpeech := DefaultPartOfSpeech;
      pronunciation := [];
      meaning := [];
      example := [];
      existingWords := [];
      wordExists := false;
      error := None;
      successMessage := None;
      added := [];
    }

    /** The duplicate flag is what the check computes for the current input. */
    predicate InSync()
      reads this
    {
      wordExists == WordExists(word, existingWords)
    }

    /** The loading effect: the stored words' lower-cased spellings when they
        can be read; a failure is only logged. */
    method LoadExistingWords(loggedIn: bool, fetched: Option<seq<VocabularyWord>>)
      modifies this
      ensures existingWords == if loggedIn && fetched.Some? then ExistingWords(fetched.value) else old(existingWords)
      ensures word == old(word) && wordExists == old(wordExists) && error == old(error) && added == old(added)
      ensures partOfSpeech == old(partOfSpeech) && pronunciation == old(pronunciation)
      ensures meaning == old(meaning) && example == old(example) && successMessage == old(successMessage)
    {
      if loggedIn && fetched.Some? {
        existingWords := ExistingWords(fetched.value);
      }
    }

    /** The effect that reruns the duplicate check when the input or the list
        changes. */
    method CheckWordExists()
      modifies this
      ensures InSync()
      ensures word == old(word) && existingWords == old(existingWords)
      ensures error == old(error) && successMessage == old(successMessage) && added == old(added)
      ensures partOfSpeech == old(partOfSpeech) && pronunciation == old(pronunciation)
      ensures meaning == old(meaning) && example == old(example)
    {
      if JsTrim(word) != [] {
        wordExists := ToLower(JsTrim(word)) in existingWords;
      } else {
        wordExists := false;
      }
    }

    /** The state change once addWord returns: the word is recorded, the
        success message quotes the input as typed, and the trimmed lower-cased
        word joins the list; ResetForm then clears the form. */
    method RecordAddedWord(newId: string)
      modifies this
      ensures added == old(added) + [NewWord(newId, word, partOfSpeech, pronunciation, meaning, example)]
      ensures successMessage == Some(AddedMessage(word))
      ensures existingWords == old(existingWords) + [ToLower(JsTrim(word))]
      ensures word == old(word) && partOfSpeech == old(partOfSpeech) && pronunciation == old(pronunciation)
      ensures meaning == old(meaning) && example == old(example)
      ensures wordExists == old(wordExists) && error == old(error)
    {
      added := added + [NewWord(newId, word, partOfSpeech, pronunciation, meaning, example)];
      successMessage := Some(AddedMessage(word));
      existingWords := existingWords + [ToLower(JsTrim(word))];
    }

    /** The form fields back to their initial values. */
    method ResetForm()
      modifies this
      ensures word == [] && partOfSpeech == DefaultPartOfSpeech && pronunciation == [] && meaning == [] && example == []
      ensures added == old(added) && successMessage == old(successMessage) && existingWords == old(existingWords)
      ensures wordExists == old(wordExists) && error == old(error)
    {
      word := [];
      partOfSpeech := DefaultPartOfSpeech;
      pronunciation := [];
      meaning := [];
      example := [];
    }

    /** handleSubmit: refuses without a user and when the input is flagged as
        a duplicate; otherwise clears the error and writes the new word, or
        sets the failure message when the service throws. With the flag in
        step with the input, a word already in the list (ignoring case and
        surrounding whitespace) is never written again. */
    method HandleSubmit(loggedIn: bool, newId: string, addOk: bool)
      modifies this
      ensures !loggedIn ==> error == Some(NotLoggedIn)
      ensures loggedIn && old(wordExists) ==> error == Some(AlreadyExists)
      ensures loggedIn && !old(wordExists) ==> error == if addOk then None else Some(AddFailed)
      ensures added == if loggedIn && !old(wordExists) && addOk
        then old(added) + [NewWord(newId, old(word), old(partOfSpeech), old(pronunciation), old(meaning), old(example))]
        else old(added)
      ensures !(loggedIn && !old(wordExists) && addOk) ==>
        && word == old(word) && partOfSpeech == old(partOfSpeech) && pronunciation == old(pronunciation)
        && meaning == old(meaning) && example == old(example)
        && existingWords == old(existingWords) && successMessage == old(successMessage)
      ensures loggedIn && !old(wordExists) && addOk ==>
        && successMessage == Some(AddedMessage(old(word)))
        && word == [] && partOfSpeech == DefaultPartOfSpeech && pronunciation == [] && meaning == [] && example == []
        && existingWords == old(existingWords) + [ToLower(JsTrim(old(word)))]
      ensures wordExists == old(wordExists)
      ensures old(InSync()) && WordExists(old(word), old(existingWords)) ==> added == old(added)
      ensures old(InSync()) ==> InSync()
    {
      if !loggedIn {
        error := Some(NotLoggedIn);
        return;
      }
      if wordExists {
        error := Some(AlreadyExists);
        return;
      }
      error := None;
      if !addOk {
        error := Some(AddFailed);
        return;
      }
      RecordAddedWord(newId);
      ResetForm();
    }
  }
}
