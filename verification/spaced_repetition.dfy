/** The spaced-repetition scheduler (src/utils/spacedRepetition.ts): the interval
    table, the ease factors, the due-for-review predicate, the mastery step for a
    right or wrong answer, and the review prioritiser (a filter followed by a
    stable sort). The clock is the parameter `now` (milliseconds). */
module SpacedRepetition {
  import opened VocabularyTypes

  /** Milliseconds in one day (1000 * 60 * 60 * 24). */
  const MsPerDay: int := 86_400_000

  /** BASE_INTERVALS: review interval in days for mastery levels 0 to 5. */
  const BaseIntervals: seq<nat> := [0, 1, 3, 7, 14, 30]

  /** A self-reported recall grade. */
  datatype Performance = Difficult | Ok | Easy

  /** The base interval of a level; a level outside the table falls back to 0
      (the `|| 0` of the source). */
  function BaseInterval(level: int): nat
  {
    if 0 <= level < |BaseIntervals| then BaseIntervals[level] else 0
  }

  /** The base interval is at most 30 days, is zero exactly for level 0 and
      the levels outside the table, and grows strictly with the level. */
  lemma BaseIntervalShape(level: int, higher: int)
    ensures BaseInterval(level) <= 30
    ensures BaseInterval(level) == 0 <==> level <= 0 || 5 < level
    ensures 0 <= level < higher <= 5 ==> BaseInterval(level) < BaseInterval(higher)
  {
  }

  /** EASE_FACTOR in tenths: 0.6, 1.0 and 1.5. */
  function EaseTenths(performance: Performance): nat
  {
    match performance
    case Difficult => 6
    case Ok => 10
    case Easy => 15
  }

  /** Math.round(baseInterval * easeFactor), computed exactly on tenths. */
  function IntervalDays(level: int, performance: Performance): nat
  {
    (BaseInterval(level) * EaseTenths(performance) + 5) / 10
  }

  /** The interval is the whole number of days nearest to base * ease, a half
      rounding up (as Math.round does); the ok grade keeps the base interval. */
  lemma IntervalIsRounded(level: int, performance: Performance)
    ensures var x := BaseInterval(level) * EaseTenths(performance);
      x - 5 < 10 * IntervalDays(level, performance) <= x + 5
    ensures performance == Ok ==> IntervalDays(level, performance) == BaseInterval(level)
  {
  }

  /** calculateNextReviewDate: `now` moved forward by whole days, the number
      of days being base * ease rounded to the nearest whole number (a half
      rounding up, as Math.round does). */
  function NextReviewDate(level: int, performance: Performance, now: int): (next: int)
    ensures next >= now
    ensures (next - now) % MsPerDay == 0
    ensures (level <= 0 || 5 < level) ==> next == now
    ensures next - now <= 45 * MsPerDay
    ensures var x := BaseInterval(level) * EaseTenths(performance);
      x - 5 < 10 * ((next - now) / MsPerDay) <= x + 5
    ensures performance == Ok ==> next == now + BaseInterval(level) * MsPerDay
  {
    var days := IntervalDays(level, performance);
    assert (now + days * MsPerDay - now) / MsPerDay == days;
    now + days * MsPerDay
  }

  /** Day offsets of calculateNextReviewDate at a few points: level 3 graded
      difficult gives 4 days (4.2 rounded), level 2 graded easy 5 days (4.5
      rounded up), level 1 graded easy 2 days (1.5 rounded up), level 5 graded
      easy 45 days. */
  lemma IntervalExamples()
    ensures IntervalDays(3, Difficult) == 4
    ensures IntervalDays(2, Easy) == 5
    ensures IntervalDays(1, Easy) == 2
    ensures IntervalDays(5, Easy) == 45
  {
  }

  /** A better grade never schedules the next review earlier. */
  lemma {:induction false} IntervalMonotoneInGrade(level: int)
    ensures IntervalDays(level, Difficult) <= IntervalDays(level, Ok) <= IntervalDays(level, Easy)
  {
    var b := BaseInterval(level);
    assert b * 6 <= b * 10 <= b * 15;
  }

  /** isDueForReview. A stored next-review date decides on its own; otherwise a
      never-reviewed word is due; otherwise whole days elapsed since the last
      review (rounded down) are compared with the level's base interval. */
  function IsDueForReview(lastReviewed: Option<int>, masteryLevel: int, nextReviewDate: Option<int>, now: int): (due: bool)
    ensures nextReviewDate.Some? ==> (due <==> now >= nextReviewDate.value)
    ensures nextReviewDate.None? && lastReviewed.None? ==> due
    ensures nextReviewDate.None? && lastReviewed.Some? ==>
              (due <==> now - lastReviewed.value >= BaseInterval(masteryLevel) * MsPerDay)
  {
    if nextReviewDate.Some? then
      now >= nextReviewDate.value
    else if lastReviewed.None? then
      true
    else
      var daysSinceReview := (now - lastReviewed.value) / MsPerDay;
      DaysElapsedBound(now - lastReviewed.value, BaseInterval(masteryLevel));
      daysSinceReview >= BaseInterval(masteryLevel)
  }

  /** floor(elapsed / day) >= days exactly when elapsed covers that many days. */
  lemma DaysElapsedBound(elapsed: int, days: nat)
    ensures elapsed / MsPerDay >= days <==> elapsed >= days * MsPerDay
  {
    var q := elapsed / MsPerDay;
    assert elapsed == q * MsPerDay + elapsed % MsPerDay;
    if q >= days {
      assert q * MsPerDay >= days * MsPerDay;
    } else {
      assert q + 1 <= days;
      assert (q + 1) * MsPerDay <= days * MsPerDay;
    }
  }

  /** Due-ness of a word at `now`. */
  function IsDue(w: VocabularyWord, now: int): bool
  {
    IsDueForReview(w.lastReviewed, w.masteryLevel, w.nextReviewDate, now)
  }

  /** A word that is due stays due as time goes on. */
  lemma DueIsMonotone(w: VocabularyWord, t1: int, t2: int)
    requires t1 <= t2 && IsDue(w, t1)
    ensures IsDue(w, t2)
  {
  }

  /** In the fallback branch, a reviewed word at level 0 (or at a level outside
      the table) is due exactly when `now` is not before its last review; a last
      review in the future makes it not due. */
  lemma ReviewedLevelZeroDue(w: VocabularyWord, now: int)
    requires w.nextReviewDate.None? && w.lastReviewed.Some?
    requires w.masteryLevel <= 0 || 5 < w.masteryLevel
    ensures IsDue(w, now) <==> now >= w.lastReviewed.value
  {
  }

  /** calculateMasteryAdjustment: one level up for a correct answer, one down
      otherwise, clamped to [0, 5]. */
  function MasteryAdjustment(isCorrect: bool, currentMasteryLevel: int): (level: int)
    ensures isCorrect ==> level <= 5 && (currentMasteryLevel < 5 ==> level == currentMasteryLevel + 1)
    ensures !isCorrect ==> level >= 0 && (currentMasteryLevel > 0 ==> level == currentMasteryLevel - 1)
    ensures isCorrect && currentMasteryLevel >= 5 ==> level == 5
    ensures !isCorrect && currentMasteryLevel <= 0 ==> level == 0
    ensures 0 <= currentMasteryLevel <= 5 ==> 0 <= level <= 5
    ensures 0 <= currentMasteryLevel <= 5 ==> -1 <= level - currentMasteryLevel <= 1
  {
    if isCorrect then
      (if 5 < currentMasteryLevel + 1 then 5 else currentMasteryLevel + 1)
    else
      (if 0 > currentMasteryLevel - 1 then 0 else currentMasteryLevel - 1)
  }

  // ---------------------------------------------------------------------------
  // The review prioritiser

  /** The filter of prioritizeWordsForReview: a word stays when it is not yet at
      level 5, or when it is due. */
  predicate Reviewable(w: VocabularyWord, now: int)
  {
    w.masteryLevel < 5 || IsDue(w, now)
  }

  /** `words` restricted to the reviewable ones, in input order. */
  function FilterReviewable(words: seq<VocabularyWord>, now: int): (r: seq<VocabularyWord>)
    ensures forall w :: w in r ==> Reviewable(w, now)
    ensures forall w :: multiset(r)[w] == if Reviewable(w, now) then multiset(words)[w] else 0
  {
    if words == [] then []
    else
      assert words == [words[0]] + words[1..];
      (if Reviewable(words[0], now) then [words[0]] else []) + FilterReviewable(words[1..], now)
  }

  /** The lastReviewed time used by the sort; an absent one counts as 0. */
  function ReviewedAtOrZero(w: VocabularyWord): int
  {
    if w.lastReviewed.Some? then w.lastReviewed.value else 0
  }

  /** The three keys the comparator looks at: due first (rank 0), then the
      mastery level, then the last-review time. */
  datatype SortKey = SortKey(dueRank: int, level: int, reviewedAt: int)

  function KeyOf(w: VocabularyWord, now: int): SortKey
  {
    SortKey(if IsDue(w, now) then 0 else 1, w.masteryLevel, ReviewedAtOrZero(w))
  }

  /** Lexicographic order on keys. */
  predicate KeyLe(a: SortKey, b: SortKey)
  {
    a.dueRank < b.dueRank
    || (a.dueRank == b.dueRank && (a.level < b.level
    || (a.level == b.level && a.reviewedAt <= b.reviewedAt)))
  }

  /** The comparator of prioritizeWordsForReview: negative when `a` goes first.
      It orders words exactly by the lexicographic order of their keys, is zero
      exactly on equal keys, and is antisymmetric. */
  function Compare(a: VocabularyWord, b: VocabularyWord, now: int): (c: int)
    ensures c <= 0 <==> KeyLe(KeyOf(a, now), KeyOf(b, now))
    ensures c == 0 <==> KeyOf(a, now) == KeyOf(b, now)
  {
    var aIsDue := IsDue(a, now);
    var bIsDue := IsDue(b, now);
    if aIsDue != bIsDue then
      (if aIsDue then -1 else 1)
    else if a.masteryLevel != b.masteryLevel then
      a.masteryLevel - b.masteryLevel
    else
      ReviewedAtOrZero(a) - ReviewedAtOrZero(b)
  }

  /** The comparator is antisymmetric, as Array.prototype.sort requires of a
      consistent comparator. */
  lemma CompareAntisymmetric(a: VocabularyWord, b: VocabularyWord, now: int)
    ensures Compare(a, b, now) < 0 <==> Compare(b, a, now) > 0
  {
  }

  /** Ascending by key. */
  predicate SortedByKey<T>(s: seq<T>, key: T -> SortKey)
  {
    forall i, j :: 0 <= i < j < |s| ==> KeyLe(key(s[i]), key(s[j]))
  }

  /** `[x]` when `x` has key `k`, otherwise empty. */
  function Own<T>(x: T, key: T -> SortKey, k: SortKey): seq<T>
  {
    if key(x) == k then [x] else []
  }

  /** The elements of `s` whose key is `k`, in order: what a stable sort must
      keep. */
  function WithKey<T>(s: seq<T>, key: T -> SortKey, k: SortKey): seq<T>
  {
    if s == [] then []
    else Own(s[0], key, k) + WithKey(s[1..], key, k)
  }

  /** Places `x` in front of the first element whose key is not below its own. */
  function InsertByKey<T>(x: T, t: seq<T>, key: T -> SortKey): (r: seq<T>)
    ensures multiset(r) == multiset(t) + multiset{x}
  {
    if t == [] then [x]
    else if KeyLe(key(x), key(t[0])) then [x] + t
    else
      assert t == [t[0]] + t[1..];
      [t[0]] + InsertByKey(x, t[1..], key)
  }

  /** A stable sort by key (insertion sort). */
  function SortByKey<T>(s: seq<T>, key: T -> SortKey): (r: seq<T>)
    ensures multiset(r) == multiset(s)
  {
    if s == [] then []
    else
      assert s == [s[0]] + s[1..];
      InsertByKey(s[0], SortByKey(s[1..], key), key)
  }

  /** A sorted list stays sorted behind an element whose key is below all of
      its keys. */
  lemma SortedCons<T>(h: T, t: seq<T>, key: T -> SortKey)
    requires SortedByKey(t, key)
    requires forall e :: e in t ==> KeyLe(key(h), key(e))
    ensures SortedByKey([h] + t, key)
  {
    var r := [h] + t;
    forall i, j | 0 <= i < j < |r|
      ensures KeyLe(key(r[i]), key(r[j]))
    {
      assert r[j] == t[j - 1] && r[j] in t;
      if i > 0 {
        assert r[i] == t[i - 1];
      }
    }
  }

  lemma {:induction false} InsertKeepsSorted<T>(x: T, t: seq<T>, key: T -> SortKey)
    requires SortedByKey(t, key)
    ensures SortedByKey(InsertByKey(x, t, key), key)
  {
    if t != [] && !KeyLe(key(x), key(t[0])) {
      var rest := InsertByKey(x, t[1..], key);
      InsertKeepsSorted(x, t[1..], key);
      forall e | e in rest
        ensures KeyLe(key(t[0]), key(e))
      {
        assert e in multiset(rest);
        if e != x {
          var j :| 0 <= j < |t[1..]| && t[1..][j] == e;
          assert t[j + 1] == e;
        }
      }
      SortedCons(t[0], rest, key);
    }
  }

  lemma {:induction false} SortIsSorted<T>(s: seq<T>, key: T -> SortKey)
    ensures SortedByKey(SortByKey(s, key), key)
  {
    if s != [] {
      SortIsSorted(s[1..], key);
      InsertKeepsSorted(s[0], SortByKey(s[1..], key), key);
    }
  }

  lemma WithKeyCons<T>(x: T, t: seq<T>, key: T -> SortKey, k: SortKey)
    ensures WithKey([x] + t, key, k) == Own(x, key, k) + WithKey(t, key, k)
  {
    assert ([x] + t)[1..] == t;
  }

  /** Inserting `x` puts it in front of the elements that share its key. */
  lemma {:induction false} InsertWithKey<T>(x: T, t: seq<T>, key: T -> SortKey, k: SortKey)
    ensures WithKey(InsertByKey(x, t, key), key, k) == Own(x, key, k) + WithKey(t, key, k)
  {
    if t == [] {
      WithKeyCons(x, [], key, k);
    } else if KeyLe(key(x), key(t[0])) {
      WithKeyCons(x, t, key, k);
    } else {
      InsertWithKey(x, t[1..], key, k);
      InsertAfterHead(x, t, key, k);
    }
  }

  lemma {:induction false} InsertAfterHead<T>(x: T, t: seq<T>, key: T -> SortKey, k: SortKey)
    requires t != [] && !KeyLe(key(x), key(t[0]))
    requires WithKey(InsertByKey(x, t[1..], key), key, k) == Own(x, key, k) + WithKey(t[1..], key, k)
    ensures WithKey(InsertByKey(x, t, key), key, k) == Own(x, key, k) + WithKey(t, key, k)
  {
    var rest := InsertByKey(x, t[1..], key);
    assert InsertByKey(x, t, key) == [t[0]] + rest;
    WithKeyCons(t[0], rest, key, k);
    assert WithKey(t, key, k) == Own(t[0], key, k) + WithKey(t[1..], key, k);
    // `x` and `t[0]` have different keys, so at most one of them has key `k`.
    assert Own(x, key, k) == [] || Own(t[0], key, k) == [];
    SwapWhenOneEmpty(Own(t[0], key, k), Own(x, key, k), WithKey(t[1..], key, k));
  }

  lemma SwapWhenOneEmpty<T>(a: seq<T>, b: seq<T>, c: seq<T>)
    requires a == [] || b == []
    ensures a + (b + c) == b + (a + c)
  {
    if a == [] {
      assert a + (b + c) == b + c == b + (a + c);
    } else {
      assert a + (b + c) == a + c == b + (a + c);
    }
  }

  /** The sort is stable: equal-key elements keep their input order. */
  lemma {:induction false} SortIsStable<T>(s: seq<T>, key: T -> SortKey, k: SortKey)
    ensures WithKey(SortByKey(s, key), key, k) == WithKey(s, key, k)
  {
    if s != [] {
      SortIsStable(s[1..], key, k);
      InsertWithKey(s[0], SortByKey(s[1..], key), key, k);
    }
  }

  lemma FirstRunNonEmpty<T>(s: seq<T>, key: T -> SortKey)
    requires s != []
    ensures WithKey(s, key, key(s[0])) != []
  {
  }

  /** An index of `s` whose key is `k`, given that there is one. */
  lemma {:induction false} WithKeyWitness<T>(s: seq<T>, key: T -> SortKey, k: SortKey) returns (j: nat)
    requires WithKey(s, key, k) != []
    ensures j < |s| && key(s[j]) == k
  {
    if key(s[0]) == k {
      j := 0;
    } else {
      var j' := WithKeyWitness(s[1..], key, k);
      j := j' + 1;
    }
  }

  lemma TailRuns<T>(a: seq<T>, b: seq<T>, key: T -> SortKey, k: SortKey)
    requires a != [] && b != [] && a[0] == b[0]
    requires WithKey(a, key, k) == WithKey(b, key, k)
    ensures WithKey(a[1..], key, k) == WithKey(b[1..], key, k)
  {
    var head := Own(a[0], key, k);
    assert WithKey(a[1..], key, k) == WithKey(a, key, k)[|head|..];
    assert WithKey(b[1..], key, k) == WithKey(b, key, k)[|head|..];
  }

  lemma TailSorted<T>(a: seq<T>, key: T -> SortKey)
    requires a != [] && SortedByKey(a, key)
    ensures SortedByKey(a[1..], key)
  {
    forall i, j | 0 <= i < j < |a| - 1
      ensures KeyLe(key(a[1..][i]), key(a[1..][j]))
    {
      assert a[1..][i] == a[i + 1] && a[1..][j] == a[j + 1];
    }
  }

  /** A sorted sequence with the same equal-key runs as another sorted one is
      that other: a stable sort has exactly one possible result, so any stable
      sort (Array.prototype.sort among them) agrees with SortByKey. */
  lemma {:induction false} StableSortIsUnique<T>(a: seq<T>, b: seq<T>, key: T -> SortKey)
    requires SortedByKey(a, key) && SortedByKey(b, key)
    requires forall k :: WithKey(a, key, k) == WithKey(b, key, k)
    ensures a == b
  {
    if a != [] { FirstRunNonEmpty(a, key); }
    if b != [] { FirstRunNonEmpty(b, key); }
    if a != [] {
      assert b != [] by { assert WithKey(b, key, key(a[0])) != []; }
      var ka, kb := key(a[0]), key(b[0]);
      var j := WithKeyWitness(b, key, ka);
      assert KeyLe(kb, ka) by { if j > 0 { assert KeyLe(key(b[0]), key(b[j])); } }
      var i := WithKeyWitness(a, key, kb);
      assert KeyLe(ka, kb) by { if i > 0 { assert KeyLe(key(a[0]), key(a[i])); } }
      assert ka == kb;
      assert a[0] == WithKey(a, key, ka)[0] == WithKey(b, key, ka)[0] == b[0];
      forall k
        ensures WithKey(a[1..], key, k) == WithKey(b[1..], key, k)
      {
        TailRuns(a, b, key, k);
      }
      TailSorted(a, key);
      TailSorted(b, key);
      StableSortIsUnique(a[1..], b[1..], key);
      assert a == [a[0]] + a[1..] && b == [b[0]] + b[1..];
    }
  }

  /** The key of a word as the comparator sees it at `now`. */
  function ReviewKey(now: int): VocabularyWord -> SortKey
  {
    w => KeyOf(w, now)
  }

  /** prioritizeWordsForReview: drop level-5 words that are not due, then sort
      the rest stably with the comparator: due first, weakest first, least
      recently reviewed first. */
  function PrioritizeWordsForReview(words: seq<VocabularyWord>, now: int): seq<VocabularyWord>
  {
    SortByKey(FilterReviewable(words, now), ReviewKey(now))
  }

  /** What the prioritiser keeps: exactly the reviewable input words, each as
      often as in the input; a level-5 word that is not due never appears. */
  lemma PrioritizeKeepsReviewable(words: seq<VocabularyWord>, now: int)
    ensures forall w :: multiset(PrioritizeWordsForReview(words, now))[w]
                        == if Reviewable(w, now) then multiset(words)[w] else 0
    ensures forall w :: w in PrioritizeWordsForReview(words, now) <==> w in words && Reviewable(w, now)
    ensures forall w :: w in PrioritizeWordsForReview(words, now) && w.masteryLevel == 5 ==> IsDue(w, now)
  {
    var r := PrioritizeWordsForReview(words, now);
    forall w ensures w in r <==> w in words && Reviewable(w, now) {
      assert w in r <==> multiset(r)[w] > 0;
      assert w in words <==> multiset(words)[w] > 0;
    }
  }

  /** How the prioritiser orders: every due word before every word that is not
      due; among equally due words the lower level first; among equal levels the
      earlier last review first (absent counting as 0). */
  lemma {:induction false} PrioritizeOrder(words: seq<VocabularyWord>, now: int)
    ensures var r := PrioritizeWordsForReview(words, now);
      forall i, j :: 0 <= i < j < |r| ==>
        && (IsDue(r[i], now) || !IsDue(r[j], now))
        && (IsDue(r[i], now) == IsDue(r[j], now) ==> r[i].masteryLevel <= r[j].masteryLevel)
        && ((IsDue(r[i], now) == IsDue(r[j], now) && r[i].masteryLevel == r[j].masteryLevel)
            ==> ReviewedAtOrZero(r[i]) <= ReviewedAtOrZero(r[j]))
  {
    var r := PrioritizeWordsForReview(words, now);
    SortIsSorted(FilterReviewable(words, now), ReviewKey(now));
    forall i, j | 0 <= i < j < |r|
      ensures Compare(r[i], r[j], now) <= 0
    {
      assert KeyLe(ReviewKey(now)(r[i]), ReviewKey(now)(r[j]));
    }
  }

  /** Full ties keep their input order, and no other order of the kept words
      is both sorted and stable. */
  lemma {:induction false} PrioritizeIsTheStableSort(words: seq<VocabularyWord>, other: seq<VocabularyWord>, now: int)
    ensures forall k :: WithKey(PrioritizeWordsForReview(words, now), ReviewKey(now), k)
                        == WithKey(FilterReviewable(words, now), ReviewKey(now), k)
    ensures SortedByKey(other, ReviewKey(now))
            && (forall k :: WithKey(other, ReviewKey(now), k) == WithKey(FilterReviewable(words, now), ReviewKey(now), k))
            ==> other == PrioritizeWordsForReview(words, now)
  {
    var f, key := FilterReviewable(words, now), ReviewKey(now);
    forall k ensures WithKey(SortByKey(f, key), key, k) == WithKey(f, key, k) {
      SortIsStable(f, key, k);
    }
    if SortedByKey(other, key) && (forall k :: WithKey(other, key, k) == WithKey(f, key, k)) {
      SortIsSorted(f, key);
      StableSortIsUnique(other, SortByKey(f, key), key);
    }
  }

  /** Whether a word with key `k` survives the filter: the key records due-ness
      and level, which is all the filter looks at. */
  predicate ReviewableKey(k: SortKey)
  {
    k.dueRank == 0 || k.level < 5
  }

  /** The filter keeps each key's run of the caller's list whole, in order,
      when words with that key are reviewable, and drops it otherwise. */
  lemma {:induction false} FilterReviewableRuns(words: seq<VocabularyWord>, now: int, k: SortKey)
    ensures WithKey(FilterReviewable(words, now), ReviewKey(now), k)
            == if ReviewableKey(k) then WithKey(words, ReviewKey(now), k) else []
  {
    var key := ReviewKey(now);
    if words != [] {
      var w, rest := words[0], words[1..];
      FilterReviewableRuns(rest, now, k);
      var f := FilterReviewable(words, now);
      assert Reviewable(w, now) <==> ReviewableKey(key(w));
      if Reviewable(w, now) {
        assert f == [w] + FilterReviewable(rest, now);
        assert f[0] == w && f[1..] == FilterReviewable(rest, now);
      } else {
        assert f == FilterReviewable(rest, now);
      }
    }
  }

  /** Words that tie on every part of the comparator come out of the
      prioritiser in the order the caller passed them in. */
  lemma PrioritizeTieOrder(words: seq<VocabularyWord>, now: int, k: SortKey)
    ensures WithKey(PrioritizeWordsForReview(words, now), ReviewKey(now), k)
            == if ReviewableKey(k) then WithKey(words, ReviewKey(now), k) else []
  {
    SortIsStable(FilterReviewable(words, now), ReviewKey(now), k);
    FilterReviewableRuns(words, now, k);
  }
}
