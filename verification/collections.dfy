/** The collections page (src/pages/CollectionsPage.tsx): the words shown for
    the selected collection and the words still available for it, and the
    local state changes of the create, delete, add-word and remove-word
    handlers. The service calls are represented by whether they returned
    normally; `createCollection` also supplies the new document id and time. */
module Collections {
  import opened VocabularyTypes
  import opened Sequences
  import Text

  const LoadCollectionsFailed: string := "Failed to load collections. Please try again."
  const CreateFailed: string := "Failed to create collection. Please try again."
  const DeleteFailed: string := "Failed to delete collection. Please try again."
  const AddFailed: string := "Failed to add word to collection. Please try again."
  const RemoveFailed: string := "Failed to remove word from collection. Please try again."
  const DefaultCollectionName: string := "New Collection"

  /** The test `word => ids.includes(word.id)`. */
  function InIds(ids: seq<string>): VocabularyWord -> bool
  {
    (w: VocabularyWord) => w.id in ids
  }

  /** The test `word => !ids.includes(word.id)`. */
  function NotInIds(ids: seq<string>): VocabularyWord -> bool
  {
    (w: VocabularyWord) => w.id !in ids
  }

  /** The test `word => word.id !== wordId`. */
  function OtherId(wordId: string): VocabularyWord -> bool
  {
    (w: VocabularyWord) => w.id != wordId
  }

  /** The words the effect shows for the selected collection: those whose id
      the collection lists, in word-list order; none without a selection or
      without words. */
  function CollectionWords(selected: Option<Collection>, words: seq<VocabularyWord>): (r: seq<VocabularyWord>)
    ensures selected.None? || words == [] ==> r == []
    ensures forall w :: w in r <==> selected.Some? && w in words && w.id in selected.value.words
  {
    if selected.Some? && |words| > 0 then Filter(words, InIds(selected.value.words)) else []
  }

  /** getAvailableWords: the words the selected collection does not list; none
      without a selection. */
  function AvailableWords(selected: Option<Collection>, words: seq<VocabularyWord>): (r: seq<VocabularyWord>)
    ensures selected.None? ==> r == []
    ensures forall w :: w in r <==> selected.Some? && w in words && w.id !in selected.value.words
  {
    if selected.None? then [] else Filter(words, NotInIds(selected.value.words))
  }

  /** With a collection selected, its words and the available words split the
      word list: every word, with its multiplicity, is on exactly one side. */
  lemma CollectionAndAvailablePartition(c: Collection, words: seq<VocabularyWord>)
    ensures multiset(CollectionWords(Some(c), words)) + multiset(AvailableWords(Some(c), words)) == multiset(words)
  {
    var m := multiset(CollectionWords(Some(c), words)) + multiset(AvailableWords(Some(c), words));
    forall w ensures m[w] == multiset(words)[w] {
      if words == [] {
        assert multiset(AvailableWords(Some(c), words)) == multiset{};
      }
    }
  }

  /** Adding a word offered as available moves it from the available words to
      the collection's words and keeps the id list free of repeats, so the
      page's local append agrees with the service's `arrayUnion`. */
  lemma AddAvailableWord(c: Collection, words: seq<VocabularyWord>, w: VocabularyWord)
    requires NoDuplicates(c.words)
    requires w in AvailableWords(Some(c), words)
    ensures var u := c.(words := c.words + [w.id]);
      && NoDuplicates(u.words)
      && w in CollectionWords(Some(u), words)
      && w !in AvailableWords(Some(u), words)
  {
    var u := c.(words := c.words + [w.id]);
    assert w.id in u.words by { assert u.words[|c.words|] == w.id; }
    forall i, j | 0 <= i < j < |u.words| ensures u.words[i] != u.words[j] {
      if j == |c.words| {
        assert u.words[i] == c.words[i];
      }
    }
  }

  /** `collections.map(c => c.id === updated.id ? updated : c)`. */
  function ReplaceById(collections: seq<Collection>, updated: Collection): (r: seq<Collection>)
    ensures |r| == |collections|
    ensures forall i :: 0 <= i < |r| ==> r[i] == if collections[i].id == updated.id then updated else collections[i]
  {
    if collections == [] then []
    else [if collections[0].id == updated.id then updated else collections[0]] + ReplaceById(collections[1..], updated)
  }

  /** Replacing keeps every id in place, and a second replacement under the
      same id overrides the first. */
  lemma ReplaceByIdProperties(collections: seq<Collection>, u1: Collection, u2: Collection)
    requires u1.id == u2.id
    ensures forall i :: 0 <= i < |collections| ==> ReplaceById(collections, u1)[i].id == collections[i].id
    ensures ReplaceById(ReplaceById(collections, u1), u2) == ReplaceById(collections, u2)
  {
  }

  /** The test `c => c.id !== id`. */
  function OtherCollection(id: string): Collection -> bool
  {
    (c: Collection) => c.id != id
  }

  /** The collections left after deleting the one with `id`, in order. */
  function WithoutCollection(collections: seq<Collection>, id: string): (r: seq<Collection>)
    ensures forall c :: c in r <==> c in collections && c.id != id
    ensures |r| <= |collections|
  {
    Filter(collections, OtherCollection(id))
  }

  /** The collection `createCollection` returns for a page request: the name
      (or the service's default for an empty one), the description (absent
      becomes empty), no words, and the new id and time stamps. */
  function CreatedCollection(name: string, description: string, id: string, now: int): (c: Collection)
    ensures c.id == id && c.words == [] && c.createdAt == now && c.updatedAt == now
    ensures c.name != []
    ensures Text.JsTrim(name) != [] ==> c.name == Text.JsTrim(name)
    ensures Text.JsTrim(name) == [] ==> c.name == DefaultCollectionName
    ensures c.description == Text.JsTrim(description)
    ensures Text.JsTrim(c.description) == c.description
  {
    Text.TrimIdempotent(description, Text.JsWhitespace);
    var trimmedName := Text.JsTrim(name);
    Collection(id, if trimmedName == [] then DefaultCollectionName else trimmedName,
               Text.JsTrim(description), [], now, now)
  }

  /** The effect after a removal agrees with the handler's own update of the
      shown words: dropping `x` from the shown words is the same as showing the
      words of the list without `x`. */
  lemma {:induction false} RemoveAgreesWithEffect(words: seq<VocabularyWord>, ids: seq<string>, x: string)
    ensures Filter(Filter(words, InIds(ids)), OtherId(x)) == Filter(words, InIds(Remove(ids, x)))
  {
    if words != [] {
      var w := words[0];
      var rest := Filter(words[1..], InIds(ids));
      RemoveAgreesWithEffect(words[1..], ids, x);
      assert Filter(words, InIds(Remove(ids, x)))
        == (if w.id in Remove(ids, x) then [w] else []) + Filter(words[1..], InIds(Remove(ids, x)));
      if w.id in ids {
        assert Filter(words, InIds(ids)) == [w] + rest;
        FilterAppend([w], rest, OtherId(x));
        FilterSingleton(w, OtherId(x));
      } else {
        assert Filter(words, InIds(ids)) == rest;
      }
    }
  }

  /** The shown words without the one with id `x`, in order. */
  function ShownWithout(shown: seq<VocabularyWord>, x: string): (r: seq<VocabularyWord>)
    ensures forall w :: w in r <==> w in shown && w.id != x
  {
    Filter(shown, OtherId(x))
  }

  /** The removal handler's update of the shown words keeps them in step with
      the effect for the collection without the word. */
  lemma RemoveKeepsInSync(c: Collection, words: seq<VocabularyWord>, shown: seq<VocabularyWord>, x: string)
    requires shown == CollectionWords(Some(c), words)
    ensures ShownWithout(shown, x) == CollectionWords(Some(c.(words := Remove(c.words, x))), words)
  {
    if words != [] {
      RemoveAgreesWithEffect(words, c.words, x);
    }
  }

  /** The page state. */
  class CollectionsPage {
    var collections: seq<Collection>
    var words: seq<VocabularyWord>
    var selectedCollection: Option<Collection>
    var collectionWords: seq<VocabularyWord>
    var error: Option<string>
    var newCollectionName: string
    var newCollectionDescription: string
    var isCreatingCollection: bool

    constructor()
      ensures collections == [] && words == [] && selectedCollection == None && collectionWords == []
      ensures error == None && newCollectionName == [] && newCollectionDescription == []
      ensures !isCreatingCollection
      ensures InSync()
    {
      collections := [];
      words := [];
      selectedCollection := None;
      collectionWords := [];
      error := None;
      newCollectionName := [];
      newCollectionDescription := [];
      isCreatingCollection := false;
    }

    /** The shown words are the ones the effect computes. */
    predicate InSync()
      reads this
    {
      collectionWords == CollectionWords(selectedCollection, words)
    }

    /** The loading effect: nothing without a user; the fetched collections
        and words, the first collection selected; or the error message. */
    method Load(loggedIn: bool, fetched: Option<(seq<Collection>, seq<VocabularyWord>)>)
      modifies this
      ensures loggedIn && fetched.Some? ==>
        && collections == fetched.value.0 && words == fetched.value.1
        && selectedCollection == (if |fetched.value.0| > 0 then Some(fetched.value.0[0]) else old(selectedCollection))
        && error == old(error)
      ensures loggedIn && fetched.None? ==>
        collections == old(collections) && words == old(words)
        && selectedCollection == old(selectedCollection) && error == Some(LoadCollectionsFailed)
      ensures !loggedIn ==>
        collections == old(collections) && words == old(words)
        && selectedCollection == old(selectedCollection) && error == old(error)
      ensures collectionWords == old(collectionWords)
      ensures newCollectionName == old(newCollectionName) && newCollectionDescription == old(newCollectionDescription)
      ensures isCreatingCollection == old(isCreatingCollection)
    {
      if !loggedIn {
        return;
      }
      match fetched
      case None =>
        error := Some(LoadCollectionsFailed);
      case Some((userCollections, userWords)) =>
        collections := userCollections;
        words := userWords;
        if |userCollections| > 0 {
          selectedCollection := Some(userCollections[0]);
        }
    }

    /** The effect that runs when the selection or the words change. */
    method SyncCollectionWords()
      modifies this
      ensures InSync()
      ensures collections == old(collections) && words == old(words) && selectedCollection == old(selectedCollection)
      ensures error == old(error) && newCollectionName == old(newCollectionName)
      ensures newCollectionDescription == old(newCollectionDescription) && isCreatingCollection == old(isCreatingCollection)
    {
      if selectedCollection.Some? && |words| > 0 {
        collectionWords := Filter(words, InIds(selectedCollection.value.words));
      } else {
        collectionWords := [];
      }
    }

    /** handleCreateCollection: nothing without a user or with a name that
        trims to nothing. Otherwise the created collection is appended and
        selected and the form is cleared; if the service throws, only the
        error message is set. */
    method HandleCreateCollection(loggedIn: bool, createOk: bool, newId: string, now: int)
      modifies this
      ensures !loggedIn || Text.JsTrim(old(newCollectionName)) == [] ==>
        collections == old(collections) && selectedCollection == old(selectedCollection)
        && error == old(error) && newCollectionName == old(newCollectionName)
        && newCollectionDescription == old(newCollectionDescription) && isCreatingCollection == old(isCreatingCollection)
      ensures loggedIn && Text.JsTrim(old(newCollectionName)) != [] && !createOk ==>
        collections == old(collections) && selectedCollection == old(selectedCollection)
        && error == Some(CreateFailed) && newCollectionName == old(newCollectionName)
        && newCollectionDescription == old(newCollectionDescription) && isCreatingCollection == old(isCreatingCollection)
      ensures loggedIn && Text.JsTrim(old(newCollectionName)) != [] && createOk ==>
        var created := CreatedCollection(old(newCollectionName), old(newCollectionDescription), newId, now);
        && created.name == Text.JsTrim(old(newCollectionName))
        && collections == old(collections) + [created]
        && selectedCollection == Some(created)
        && newCollectionName == [] && newCollectionDescription == [] && !isCreatingCollection
        && error == old(error)
      ensures words == old(words) && collectionWords == old(collectionWords)
    {
      if !loggedIn || Text.JsTrim(newCollectionName) == [] {
        return;
      }
      if !createOk {
        error := Some(CreateFailed);
        return;
      }
      var createdCollection := CreatedCollection(newCollectionName, newCollectionDescription, newId, now);
      collections := collections + [createdCollection];
      newCollectionName := [];
      newCollectionDescription := [];
      isCreatingCollection := false;
      selectedCollection := Some(createdCollection);
    }

    /** handleDeleteCollection: nothing without a user or a selection. After
        the service call returns, the collection with the selected id is gone
        and the first remaining one (if any) is selected. */
    method HandleDeleteCollection(loggedIn: bool, deleteOk: bool)
      modifies this
      ensures !loggedIn || old(selectedCollection).None? ==>
        collections == old(collections) && selectedCollection == old(selectedCollection) && error == old(error)
      ensures loggedIn && old(selectedCollection).Some? && !deleteOk ==>
        collections == old(collections) && selectedCollection == old(selectedCollection) && error == Some(DeleteFailed)
      ensures loggedIn && old(selectedCollection).Some? && deleteOk ==>
        && collections == WithoutCollection(old(collections), old(selectedCollection).value.id)
        && (forall c :: c in collections ==> c.id != old(selectedCollection).value.id)
        && selectedCollection == (if |collections| > 0 then Some(collections[0]) else None)
        && error == old(error)
      ensures words == old(words) && collectionWords == old(collectionWords)
      ensures newCollectionName == old(newCollectionName) && newCollectionDescription == old(newCollectionDescription)
      ensures isCreatingCollection == old(isCreatingCollection)
    {
      if !loggedIn || selectedCollection.None? {
        return;
      }
      if !deleteOk {
        error := Some(DeleteFailed);
        return;
      }
      var updatedCollections := WithoutCollection(collections, selectedCollection.value.id);
      collections := updatedCollections;
      if |updatedCollections| > 0 {
        selectedCollection := Some(updatedCollections[0]);
      } else {
        selectedCollection := None;
      }
    }

    /** handleAddWordToCollection: after the service call returns, the id is
        appended to the selected collection, which replaces every collection
        with its id in the list. */
    method HandleAddWordToCollection(loggedIn: bool, wordId: string, addOk: bool)
      modifies this
      ensures !loggedIn || old(selectedCollection).None? ==>
        collections == old(collections) && selectedCollection == old(selectedCollection) && error == old(error)
      ensures loggedIn && old(selectedCollection).Some? && !addOk ==>
        collections == old(collections) && selectedCollection == old(selectedCollection) && error == Some(AddFailed)
      ensures loggedIn && old(selectedCollection).Some? && addOk ==>
        var updated := old(selectedCollection).value.(words := old(selectedCollection).value.words + [wordId]);
        && selectedCollection == Some(updated)
        && collections == ReplaceById(old(collections), updated)
        && error == old(error)
      ensures words == old(words) && collectionWords == old(collectionWords)
      ensures newCollectionName == old(newCollectionName) && newCollectionDescription == old(newCollectionDescription)
      ensures isCreatingCollection == old(isCreatingCollection)
    {
      if !loggedIn || selectedCollection.None? {
        return;
      }
      if !addOk {
        error := Some(AddFailed);
        return;
      }
      var current := selectedCollection.value;
      var updatedCollection := current.(words := current.words + [wordId]);
      collections := ReplaceById(collections, updatedCollection);
      selectedCollection := Some(updatedCollection);
    }

    /** The state change once removeWordFromCollection returns: every
        occurrence of the id leaves the selected collection, which replaces
        every collection with its id in the list, and the shown words. */
    method ApplyRemoval(wordId: string)
      requires selectedCollection.Some?
      modifies this
      ensures var updated := old(selectedCollection).value.(words := Remove(old(selectedCollection).value.words, wordId));
        && wordId !in updated.words
        && selectedCollection == Some(updated)
        && collections == ReplaceById(old(collections), updated)
        && collectionWords == ShownWithout(old(collectionWords), wordId)
      ensures words == old(words) && error == old(error)
      ensures newCollectionName == old(newCollectionName) && newCollectionDescription == old(newCollectionDescription)
      ensures isCreatingCollection == old(isCreatingCollection)
    {
      var current := selectedCollection.value;
      var updatedCollection := current.(words := Remove(current.words, wordId));
      collections := ReplaceById(collections, updatedCollection);
      selectedCollection := Some(updatedCollection);
      collectionWords := ShownWithout(collectionWords, wordId);
    }

    /** handleRemoveWordFromCollection: nothing without a user or a
        selection; the error message if the service call throws; the removal
        above once it returns. RemoveKeepsInSync shows the shown words then
        still agree with the effect. */
    method HandleRemoveWordFromCollection(loggedIn: bool, wordId: string, removeOk: bool)
      modifies this
      ensures !loggedIn || old(selectedCollection).None? || !removeOk ==>
        collections == old(collections) && selectedCollection == old(selectedCollection)
        && collectionWords == old(collectionWords)
        && error == (if loggedIn && old(selectedCollection).Some? then Some(RemoveFailed) else old(error))
      ensures loggedIn && old(selectedCollection).Some? && removeOk ==>
        var updated := old(selectedCollection).value.(words := Remove(old(selectedCollection).value.words, wordId));
        && wordId !in updated.words
        && selectedCollection == Some(updated)
        && collections == ReplaceById(old(collections), updated)
        && collectionWords == ShownWithout(old(collectionWords), wordId)
        && error == old(error)
      ensures words == old(words)
      ensures newCollectionName == old(newCollectionName) && newCollectionDescription == old(newCollectionDescription)
      ensures isCreatingCollection == old(isCreatingCollection)
    {
      if !loggedIn || selectedCollection.None? {
        return;
      }
      if !removeOk {
        error := Some(RemoveFailed);
        return;
      }
      ApplyRemoval(wordId);
    }
  }
}
