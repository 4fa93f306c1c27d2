/** The home page (src/pages/HomePage.tsx): the word counts per learning
    status shown on the dashboard. */
module Home {
  import opened VocabularyTypes
  import opened Sequences

  /** The dashboard counters. */
  datatype WordStats = WordStats(total: int, newCount: int, learning: int, mastered: int)

  /** The test `word => word.status === status`. */
  function HasStatus(status: WordStatus): VocabularyWord -> bool
  {
    (w: VocabularyWord) => w.status == status
  }

  /** The counters computed from the loaded words: the list length and the
      number of words in each status. */
  function ComputeStats(words: seq<VocabularyWord>): (r: WordStats)
    ensures r.total == |words|
    ensures r.newCount == |Filter(words, HasStatus(New))|
    ensures r.learning == |Filter(words, HasStatus(Learning))|
    ensures r.mastered == |Filter(words, HasStatus(Mastered))|
  {
    WordStats(|words|, CountWhere(words, HasStatus(New)),
              CountWhere(words, HasStatus(Learning)), CountWhere(words, HasStatus(Mastered)))
  }

  /** Every word has exactly one of the three statuses, so the three status
      counts add up to the total. */
  lemma {:induction false} StatusCountsSumToTotal(words: seq<VocabularyWord>)
    ensures var r := ComputeStats(words); r.newCount + r.learning + r.mastered == r.total
  {
    if words != [] {
      StatusCountsSumToTotal(words[1..]);
    }
  }

  /** A word counts in the status it carries and in no other. */
  lemma {:induction false} StatusCountIsMultiplicity(words: seq<VocabularyWord>, w: VocabularyWord)
    ensures multiset(Filter(words, HasStatus(w.status)))[w] == multiset(words)[w]
    ensures forall s :: s != w.status ==> multiset(Filter(words, HasStatus(s)))[w] == 0
  {
  }

  /** The page state. */
  class HomePage {
    var wordStats: WordStats
    var isLoading: bool

    constructor()
      ensures wordStats == WordStats(0, 0, 0, 0) && isLoading
    {
      wordStats := WordStats(0, 0, 0, 0);
      isLoading := true;
    }

    /** loadData: without a user only the loading flag drops; otherwise the
        counters are computed from the words read, and a failed read leaves
        them as they were. */
    method LoadData(loggedIn: bool, fetched: Option<seq<VocabularyWord>>)
      modifies this
      ensures !isLoading
      ensures wordStats == if loggedIn && fetched.Some? then ComputeStats(fetched.value) else old(wordStats)
    {
      if !loggedIn {
        isLoading := false;
        return;
      }
      if fetched.Some? {
        wordStats := ComputeStats(fetched.value);
      }
      isLoading := false;
    }
  }
}
