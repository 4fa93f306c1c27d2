/** The flashcard selection page (src/pages/SelectFlashcardsPage.tsx): the
    status filter, the selection handlers for one word, for all filtered words
    and for a whole category, the collapsed/expanded category set, the grouping
    of the filtered words by category under sorted keys, and the guard before
    the study session starts. */
module SelectFlashcards {
  import opened VocabularyTypes
  import opened Sequences
  import Flashcards

  const LoadWordsFailed: string := "Failed to load vocabulary words. Please try again."
  const Uncategorized: string := "Uncategorized"

  /** getFilteredWords: the words whose status is the chosen one, in list
      order (the order part is Sequences.FilterAppend). */
  function FilteredWords(words: seq<VocabularyWord>, statusFilter: WordStatus): (r: seq<VocabularyWord>)
    ensures forall w :: w in r <==> w in words && w.status == statusFilter
    ensures forall w :: multiset(r)[w] == if w.status == statusFilter then multiset(words)[w] else 0
  {
    Filter(words, (w: VocabularyWord) => w.status == statusFilter)
  }

  /** The selection after handleSelectWord: a selected id loses every
      occurrence, an unselected one is appended. */
  function ToggleWord(selected: seq<string>, wordId: string): (r: seq<string>)
    ensures wordId in r <==> wordId !in selected
    ensures forall id :: id != wordId ==> multiset(r)[id] == multiset(selected)[id]
    ensures wordId !in selected ==> r == selected + [wordId]
  {
    if wordId in selected then Remove(selected, wordId) else selected + [wordId]
  }

  /** Selecting an unselected word and then deselecting it gives back the
      selection as it was. */
  lemma ToggleWordTwice(selected: seq<string>, wordId: string)
    requires wordId !in selected
    ensures ToggleWord(ToggleWord(selected, wordId), wordId) == selected
  {
    RemoveAppend(selected, [wordId], wordId);
    RemoveAbsent(selected, wordId);
    assert Remove([wordId], wordId) == [];
  }

  /** `allSelected`: the filtered list is not empty and the selection has as
      many entries as it. */
  predicate AllSelected(selected: seq<string>, filtered: seq<VocabularyWord>)
  {
    |filtered| > 0 && |selected| == |filtered|
  }

  /** The selection after handleSelectAll: cleared when it is as long as the
      filtered list, otherwise exactly the filtered ids in list order. Only the
      lengths are compared. */
  function SelectAll(selected: seq<string>, filtered: seq<VocabularyWord>): (r: seq<string>)
    ensures |selected| == |filtered| ==> r == []
    ensures |selected| != |filtered| ==> |r| == |filtered| && forall i :: 0 <= i < |r| ==> r[i] == filtered[i].id
  {
    if |selected| == |filtered| then [] else Ids(filtered)
  }

  /** "Select all" on a non-empty list makes every word count as selected, and
      pressing it again clears the selection. */
  lemma SelectAllThenClear(selected: seq<string>, filtered: seq<VocabularyWord>)
    requires |filtered| > 0 && |selected| != |filtered|
    ensures AllSelected(SelectAll(selected, filtered), filtered)
    ensures SelectAll(SelectAll(selected, filtered), filtered) == []
  {
  }

  /** The test `id => !categoryWordIds.includes(id)`. */
  function NotIn(ids: seq<string>): string -> bool
  {
    id => id !in ids
  }

  /** `categoryWordIds.every(id => selectedWords.includes(id))`. */
  predicate AllIn(ids: seq<string>, selected: seq<string>)
  {
    forall id :: id in ids ==> id in selected
  }

  /** The selection after handleSelectCategory: when the whole category is
      selected its ids are dropped and nothing else; otherwise the category's
      ids join the selection, each id once. */
  function SelectCategory(selected: seq<string>, categoryWords: seq<VocabularyWord>): (r: seq<string>)
    ensures AllIn(Ids(categoryWords), selected) ==>
      forall id :: id in r <==> id in selected && id !in Ids(categoryWords)
    ensures AllIn(Ids(categoryWords), selected) ==>
      forall id :: id !in Ids(categoryWords) ==> multiset(r)[id] == multiset(selected)[id]
    ensures !AllIn(Ids(categoryWords), selected) ==>
      (forall id :: id in r <==> id in selected || id in Ids(categoryWords)) && NoDuplicates(r)
  {
    var categoryWordIds := Ids(categoryWords);
    if AllIn(categoryWordIds, selected) then Filter(selected, NotIn(categoryWordIds))
    else Dedupe(selected + categoryWordIds)
  }

  /** Deselection keeps the other ids in their order: it distributes over any
      split of the selection. */
  lemma DeselectCategoryKeepsOrder(a: seq<string>, b: seq<string>, categoryWords: seq<VocabularyWord>)
    requires AllIn(Ids(categoryWords), a + b)
    ensures SelectCategory(a + b, categoryWords) == Filter(a, NotIn(Ids(categoryWords))) + Filter(b, NotIn(Ids(categoryWords)))
  {
    FilterAppend(a, b, NotIn(Ids(categoryWords)));
  }

  /** Selecting a category that is not wholly selected keeps a selection
      without repeats as it is and appends the category ids not yet in it, in
      category order. */
  lemma SelectCategoryAppends(selected: seq<string>, categoryWords: seq<VocabularyWord>)
    requires NoDuplicates(selected)
    requires !AllIn(Ids(categoryWords), selected)
    ensures SelectCategory(selected, categoryWords)
         == selected + DedupeFrom(Ids(categoryWords), set id | id in selected)
  {
    var ids := Ids(categoryWords);
    DedupeFromAppend(selected, ids, {});
    DedupeFromDistinct(selected, {});
    assert {} + (set id | id in selected) == set id | id in selected;
  }

  /** The expanded set after toggleCategoryCollapse. */
  function ToggleCategory(expanded: set<string>, category: string): (r: set<string>)
    ensures category in r <==> category !in expanded
    ensures forall c :: c != category ==> (c in r <==> c in expanded)
  {
    if category in expanded then expanded - {category} else expanded + {category}
  }

  /** Collapsing and expanding a category again restores the set. */
  lemma ToggleCategoryTwice(expanded: set<string>, category: string)
    ensures ToggleCategory(ToggleCategory(expanded, category), category) == expanded
  {
  }

  /** `word.category || 'Uncategorized'`. */
  function CategoryOf(w: VocabularyWord): (c: string)
    ensures c != []
    ensures w.category != [] ==> c == w.category
  {
    if w.category == [] then Uncategorized else w.category
  }

  function InCategory(category: string): VocabularyWord -> bool
  {
    (w: VocabularyWord) => CategoryOf(w) == category
  }

  /** The words of one category, in list order, as the reduce pushes them:
      the group of all but the last word, and the last word if it belongs. */
  function GroupOf(words: seq<VocabularyWord>, category: string): seq<VocabularyWord>
  {
    if words == [] then []
    else
      var last := words[|words| - 1];
      GroupOf(words[..|words| - 1], category) + (if CategoryOf(last) == category then [last] else [])
  }

  /** Pushing a word extends its own group and no other. */
  lemma GroupOfSnoc(words: seq<VocabularyWord>, w: VocabularyWord, category: string)
    ensures GroupOf(words + [w], category)
         == GroupOf(words, category) + (if CategoryOf(w) == category then [w] else [])
  {
    assert (words + [w])[..|words|] == words;
  }

  /** A group holds exactly the words of its category. */
  lemma {:induction false} GroupOfMembers(words: seq<VocabularyWord>, category: string, w: VocabularyWord)
    ensures w in GroupOf(words, category) <==> w in words && CategoryOf(w) == category
  {
    if words != [] {
      var init := words[..|words| - 1];
      GroupOfMembers(init, category, w);
      InitLast(words);
    }
  }

  /** The group is the filter of the list by category, so it keeps list order. */
  lemma {:induction false} GroupOfIsFilter(words: seq<VocabularyWord>, category: string)
    ensures GroupOf(words, category) == Filter(words, InCategory(category))
  {
    if words != [] {
      var init := words[..|words| - 1];
      var last := words[|words| - 1];
      var p := InCategory(category);
      calc {
        Filter(words, p);
        { InitLast(words); }
        Filter(init + [last], p);
        { FilterAppend(init, [last], p); }
        Filter(init, p) + Filter([last], p);
        { GroupOfIsFilter(init, category); FilterSingleton(last, p); }
        GroupOf(init, category) + (if CategoryOf(last) == category then [last] else []);
      }
    }
  }

  /** The order of JavaScript's default `sort` on strings: lexicographic by
      character code, a proper prefix first. */
  predicate StrLt(a: string, b: string)
  {
    if a == [] then b != []
    else b != [] && (a[0] < b[0] || (a[0] == b[0] && StrLt(a[1..], b[1..])))
  }

  predicate StrLe(a: string, b: string)
  {
    a == b || StrLt(a, b)
  }

  lemma StrLtIrreflexive(a: string)
    ensures !StrLt(a, a)
  {
  }

  lemma {:induction false} StrLtTotal(a: string, b: string)
    ensures a == b || StrLt(a, b) || StrLt(b, a)
  {
    if a != [] && b != [] && a[0] == b[0] {
      StrLtTotal(a[1..], b[1..]);
      if a[1..] == b[1..] {
        assert a == [a[0]] + a[1..] && b == [b[0]] + b[1..];
      }
    }
  }

  lemma {:induction false} StrLtTransitive(a: string, b: string, c: string)
    requires StrLt(a, b) && StrLt(b, c)
    ensures StrLt(a, c)
  {
    if a != [] && a[0] == b[0] && b[0] == c[0] {
      StrLtTransitive(a[1..], b[1..], c[1..]);
    }
  }

  lemma StrLeTransitive(a: string, b: string, c: string)
    requires StrLe(a, b) && StrLe(b, c)
    ensures StrLe(a, c)
  {
    if StrLt(a, b) && StrLt(b, c) {
      StrLtTransitive(a, b, c);
    }
  }

  predicate SortedStrings(s: seq<string>)
  {
    forall i, j :: 0 <= i < j < |s| ==> StrLe(s[i], s[j])
  }

  /** `x` placed before the first element not below it. */
  function InsertString(x: string, t: seq<string>): (r: seq<string>)
    ensures multiset(r) == multiset(t) + multiset{x}
  {
    if t == [] || StrLe(x, t[0]) then [x] + t
    else
      assert t == [t[0]] + t[1..];
      [t[0]] + InsertString(x, t[1..])
  }

  /** `keys.sort()` with the default comparison. */
  function SortStrings(s: seq<string>): (r: seq<string>)
    ensures multiset(r) == multiset(s)
  {
    if s == [] then []
    else
      assert s == [s[0]] + s[1..];
      InsertString(s[0], SortStrings(s[1..]))
  }

  /** A sorted list stays sorted behind a string not above any of its
      elements. */
  lemma SortedStringsCons(h: string, t: seq<string>)
    requires SortedStrings(t)
    requires forall e :: e in t ==> StrLe(h, e)
    ensures SortedStrings([h] + t)
  {
    var r := [h] + t;
    forall i, j | 0 <= i < j < |r| ensures StrLe(r[i], r[j]) {
      assert r[j] == t[j - 1] && r[j] in t;
      if i > 0 {
        assert r[i] == t[i - 1];
      }
    }
  }

  lemma {:induction false} InsertStringSorted(x: string, t: seq<string>)
    requires SortedStrings(t)
    ensures SortedStrings(InsertString(x, t))
  {
    if t == [] || StrLe(x, t[0]) {
      forall e | e in t ensures StrLe(x, e) {
        var k :| 0 <= k < |t| && t[k] == e;
        if k > 0 {
          StrLeTransitive(x, t[0], t[k]);
        }
      }
      SortedStringsCons(x, t);
    } else {
      StrLtTotal(x, t[0]);
      InsertStringSorted(x, t[1..]);
      var rest := InsertString(x, t[1..]);
      forall e | e in rest ensures StrLe(t[0], e) {
        assert e in multiset(rest);
        if e != x {
          var k :| 0 <= k < |t[1..]| && t[1..][k] == e;
          assert t[k + 1] == e;
        }
      }
      SortedStringsCons(t[0], rest);
    }
  }

  lemma {:induction false} SortStringsSorted(s: seq<string>)
    ensures SortedStrings(SortStrings(s))
  {
    if s != [] {
      SortStringsSorted(s[1..]);
      InsertStringSorted(s[0], SortStrings(s[1..]));
    }
  }

  /** A list without repeats holds each value at most once. */
  lemma {:induction false} NoDuplicatesCount(s: seq<string>, x: string)
    requires NoDuplicates(s)
    ensures multiset(s)[x] <= 1
  {
    if s != [] {
      assert s == [s[0]] + s[1..];
      NoDuplicatesCount(s[1..], x);
      if s[0] == x {
        assert x !in s[1..];
      }
    }
  }

  /** A permutation of a list without repeats has none either. */
  lemma PermutationNoDuplicates(s: seq<string>, t: seq<string>)
    requires NoDuplicates(s) && multiset(s) == multiset(t)
    ensures NoDuplicates(t)
  {
    forall i, j | 0 <= i < j < |t| ensures t[i] != t[j] {
      if t[i] == t[j] {
        assert t == t[..j] + t[j..];
        assert t[i] in t[..j] && t[j] in t[j..];
        assert multiset(t)[t[i]] == multiset(t[..j])[t[i]] + multiset(t[j..])[t[i]];
        NoDuplicatesCount(s, t[i]);
      }
    }
  }

  /** One group of the page: a category and its words. */
  datatype Group = Group(category: string, words: seq<VocabularyWord>)

  /** `groups` is the grouping of `filtered`: categories strictly ascending,
      each group exactly the filtered words of its category in list order and
      never empty, and every filtered word's category present. */
  ghost predicate IsGrouping(filtered: seq<VocabularyWord>, groups: seq<Group>)
  {
    && (forall i, j :: 0 <= i < j < |groups| ==> StrLt(groups[i].category, groups[j].category))
    && (forall i :: 0 <= i < |groups| ==>
          groups[i].words == GroupOf(filtered, groups[i].category) && groups[i].words != [])
    && (forall w :: w in filtered ==> exists i :: 0 <= i < |groups| && groups[i].category == CategoryOf(w))
  }

  /** `grouped` holds, under each of the distinct `keys`, the non-empty list
      of the words of `prefix` in that category, and every category of `prefix`
      has an entry. */
  ghost predicate GroupedUpTo(prefix: seq<VocabularyWord>, grouped: map<string, seq<VocabularyWord>>, keys: seq<string>)
  {
    && NoDuplicates(keys)
    && (forall c :: c in keys <==> c in grouped)
    && (forall c :: c in grouped ==> grouped[c] == GroupOf(prefix, c) && grouped[c] != [])
    && (forall w :: w in prefix ==> CategoryOf(w) in grouped)
  }

  /** One step of the reduce keeps GroupedUpTo: the word's category gets the
      word at the end of its list, a new category is created first. */
  lemma GroupStep(prefix: seq<VocabularyWord>, word: VocabularyWord,
                  grouped: map<string, seq<VocabularyWord>>, keys: seq<string>,
                  grouped': map<string, seq<VocabularyWord>>, keys': seq<string>)
    requires GroupedUpTo(prefix, grouped, keys)
    requires CategoryOf(word) in grouped ==>
      keys' == keys && grouped' == grouped[CategoryOf(word) := grouped[CategoryOf(word)] + [word]]
    requires CategoryOf(word) !in grouped ==>
      keys' == keys + [CategoryOf(word)] && grouped' == grouped[CategoryOf(word) := [word]]
    ensures GroupedUpTo(prefix + [word], grouped', keys')
  {
    var category := CategoryOf(word);
    if category !in grouped {
      if GroupOf(prefix, category) != [] {
        var w := GroupOf(prefix, category)[0];
        GroupOfMembers(prefix, category, w);
        assert false;
      }
      forall i, j | 0 <= i < j < |keys'| ensures keys'[i] != keys'[j] {
        if j == |keys| {
          assert keys'[i] == keys[i];
        }
      }
    }
    forall c | c in grouped'
      ensures grouped'[c] == GroupOf(prefix + [word], c) && grouped'[c] != []
    {
      GroupOfSnoc(prefix, word, c);
    }
    forall w | w in prefix + [word] ensures CategoryOf(w) in grouped' {
      if w != word {
        assert w in prefix;
      }
    }
  }

  /** The first reduce of getGroupedWords: each word pushed onto the list of
      its category, a new category getting a new (empty) list first. `keys`
      are the categories in order of first appearance. */
  method GroupByCategory(filtered: seq<VocabularyWord>)
    returns (grouped: map<string, seq<VocabularyWord>>, keys: seq<string>)
    ensures GroupedUpTo(filtered, grouped, keys)
  {
    grouped := map[];
    keys := [];
    var i := 0;
    ghost var seen: seq<VocabularyWord> := [];
    while i < |filtered|
      invariant 0 <= i <= |filtered|
      invariant seen == filtered[..i]
      invariant GroupedUpTo(seen, grouped, keys)
    {
      var word := filtered[i];
      var category := CategoryOf(word);
      ghost var (before, keysBefore) := (grouped, keys);
      if category !in grouped {
        grouped := grouped[category := []];
        keys := keys + [category];
      }
      grouped := grouped[category := grouped[category] + [word]];
      if category !in before {
        assert grouped[category] == [word];
        assert grouped == before[category := [word]];
      }
      GroupStep(seen, word, before, keysBefore, grouped, keys);
      PrefixSnoc(filtered, i);
      seen := seen + [word];
      i := i + 1;
    }
    assert seen == filtered;
  }

  /** The groups copied out under the sorted categories form the grouping of
      the words the reduce went through. */
  lemma GroupsFromSortedKeys(filtered: seq<VocabularyWord>, grouped: map<string, seq<VocabularyWord>>,
                             keys: seq<string>, sortedKeys: seq<string>, groups: seq<Group>)
    requires GroupedUpTo(filtered, grouped, keys)
    requires sortedKeys == SortStrings(keys)
    requires |groups| == |sortedKeys|
    requires forall j :: 0 <= j < |groups| ==>
      sortedKeys[j] in grouped && groups[j] == Group(sortedKeys[j], grouped[sortedKeys[j]])
    ensures IsGrouping(filtered, groups)
  {
    SortStringsSorted(keys);
    PermutationNoDuplicates(keys, sortedKeys);
    forall i, j | 0 <= i < j < |groups| ensures StrLt(groups[i].category, groups[j].category) {
      assert StrLe(sortedKeys[i], sortedKeys[j]);
    }
    forall w | w in filtered
      ensures exists j :: 0 <= j < |groups| && groups[j].category == CategoryOf(w)
    {
      assert CategoryOf(w) in multiset(sortedKeys);
      var j :| 0 <= j < |sortedKeys| && sortedKeys[j] == CategoryOf(w);
      assert groups[j].category == CategoryOf(w);
    }
  }

  /** getGroupedWords: the groups built by the first reduce, copied out under
      the sorted categories. */
  method GroupedWords(filtered: seq<VocabularyWord>) returns (groups: seq<Group>)
    ensures IsGrouping(filtered, groups)
  {
    var grouped, keys := GroupByCategory(filtered);
    var sortedKeys := SortStrings(keys);
    forall j | 0 <= j < |sortedKeys| ensures sortedKeys[j] in grouped {
      assert sortedKeys[j] in multiset(keys);
    }
    groups := [];
    var k := 0;
    while k < |sortedKeys|
      invariant 0 <= k <= |sortedKeys|
      invariant |groups| == k
      invariant forall j :: 0 <= j < k ==> groups[j] == Group(sortedKeys[j], grouped[sortedKeys[j]])
    {
      var pushed := groups + [Group(sortedKeys[k], grouped[sortedKeys[k]])];
      forall j | 0 <= j < k + 1
        ensures pushed[j] == Group(sortedKeys[j], grouped[sortedKeys[j]])
      {
        if j < k {
          assert pushed[j] == groups[j];
        }
      }
      groups := pushed;
      k := k + 1;
    }
    GroupsFromSortedKeys(filtered, grouped, keys, sortedKeys, groups);
  }

  /** In a grouping every filtered word sits in exactly one group, the one of
      its category. */
  lemma GroupingPlacesEachWordOnce(filtered: seq<VocabularyWord>, groups: seq<Group>, w: VocabularyWord)
    requires IsGrouping(filtered, groups)
    requires w in filtered
    ensures exists i :: 0 <= i < |groups| && w in groups[i].words
    ensures forall i, j :: 0 <= i < |groups| && 0 <= j < |groups| && w in groups[i].words && w in groups[j].words ==> i == j
  {
    var i :| 0 <= i < |groups| && groups[i].category == CategoryOf(w);
    GroupOfMembers(filtered, groups[i].category, w);
    forall i, j | 0 <= i < |groups| && 0 <= j < |groups| && w in groups[i].words && w in groups[j].words
      ensures i == j
    {
      GroupOfMembers(filtered, groups[i].category, w);
      GroupOfMembers(filtered, groups[j].category, w);
      if i < j {
        StrLtIrreflexive(groups[i].category);
      } else if j < i {
        StrLtIrreflexive(groups[j].category);
      }
    }
  }

  /** The page state. `storedSelection` is the value written to the session
      storage key read by the flashcard deck. */
  class SelectionPage {
    var allWords: seq<VocabularyWord>
    var selectedWords: seq<string>
    var expandedCategories: set<string>
    var statusFilter: WordStatus
    var error: Option<string>
    var storedSelection: Flashcards.StoredSelection
    var startedStudy: bool

    constructor()
      ensures allWords == [] && selectedWords == [] && expandedCategories == {}
      ensures statusFilter == New && error == None
      ensures storedSelection == None && !startedStudy
    {
      allWords := [];
      selectedWords := [];
      expandedCategories := {};
      statusFilter := New;
      error := None;
      storedSelection := None;
      startedStudy := false;
    }

    function Filtered(): seq<VocabularyWord>
      reads this
    {
      FilteredWords(allWords, statusFilter)
    }

    /** The loading effect: nothing without a user; the fetched words, or the
        error message when the fetch throws. */
    method LoadWords(loggedIn: bool, fetched: Option<seq<VocabularyWord>>)
      modifies this
      ensures loggedIn && fetched.Some? ==> allWords == fetched.value && error == old(error)
      ensures loggedIn && fetched.None? ==> allWords == old(allWords) && error == Some(LoadWordsFailed)
      ensures !loggedIn ==> allWords == old(allWords) && error == old(error)
      ensures selectedWords == old(selectedWords) && expandedCategories == old(expandedCategories)
      ensures statusFilter == old(statusFilter)
      ensures storedSelection == old(storedSelection) && startedStudy == old(startedStudy)
    {
      if !loggedIn {
        return;
      }
      match fetched
      case Some(words) => allWords := words;
      case None => error := Some(LoadWordsFailed);
    }

    method HandleSelectWord(wordId: string)
      modifies this
      ensures selectedWords == ToggleWord(old(selectedWords), wordId)
      ensures allWords == old(allWords) && statusFilter == old(statusFilter)
      ensures expandedCategories == old(expandedCategories) && error == old(error)
      ensures storedSelection == old(storedSelection) && startedStudy == old(startedStudy)
    {
      selectedWords := ToggleWord(selectedWords, wordId);
    }

    method HandleSelectAll()
      modifies this
      ensures selectedWords == SelectAll(old(selectedWords), Filtered())
      ensures |Filtered()| > 0 && !old(AllSelected(selectedWords, Filtered())) ==> AllSelected(selectedWords, Filtered())
      ensures allWords == old(allWords) && statusFilter == old(statusFilter)
      ensures expandedCategories == old(expandedCategories) && error == old(error)
      ensures storedSelection == old(storedSelection) && startedStudy == old(startedStudy)
    {
      var filteredWords := Filtered();
      selectedWords := SelectAll(selectedWords, filteredWords);
    }

    method HandleSelectCategory(categoryWords: seq<VocabularyWord>)
      modifies this
      ensures selectedWords == SelectCategory(old(selectedWords), categoryWords)
      ensures allWords == old(allWords) && statusFilter == old(statusFilter)
      ensures expandedCategories == old(expandedCategories) && error == old(error)
      ensures storedSelection == old(storedSelection) && startedStudy == old(startedStudy)
    {
      selectedWords := SelectCategory(selectedWords, categoryWords);
    }

    method ToggleCategoryCollapse(category: string)
      modifies this
      ensures expandedCategories == ToggleCategory(old(expandedCategories), category)
      ensures allWords == old(allWords) && statusFilter == old(statusFilter)
      ensures selectedWords == old(selectedWords) && error == old(error)
      ensures storedSelection == old(storedSelection) && startedStudy == old(startedStudy)
    {
      expandedCategories := ToggleCategory(expandedCategories, category);
    }

    /** startStudy: nothing happens with an empty selection; otherwise the
        selection is stored for the flashcard deck and the study page opens. */
    method StartStudy()
      modifies this
      ensures old(selectedWords) == [] ==> storedSelection == old(storedSelection) && startedStudy == old(startedStudy)
      ensures old(selectedWords) != [] ==> storedSelection == Some(selectedWords) && startedStudy
      ensures allWords == old(allWords) && statusFilter == old(statusFilter) && selectedWords == old(selectedWords)
      ensures expandedCategories == old(expandedCategories) && error == old(error)
    {
      if |selectedWords| == 0 {
        return;
      }
      storedSelection := Some(selectedWords);
      startedStudy := true;
    }
  }

  /** A started study session whose selection matches words of the pool gets
      exactly those words as its deck. */
  lemma StudyUsesSelection(selected: seq<string>, pool: seq<VocabularyWord>, now: int)
    requires selected != []
    requires exists w :: w in pool && w.id in selected
    ensures Flashcards.LoadDeck(true, Some(pool), Some(selected), now) == Success(Flashcards.SelectedWords(pool, selected))
  {
  }
}
