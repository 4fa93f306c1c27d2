/** The data script python.py: every topic's word list is cleaned of a
    trailing part-of-speech tag and zipped with its pronunciation and meaning
    lists into records, appended topic after topic to one list. The script
    writes one loop per topic; here the topics are a parameter and the script
    is one loop over them. */
module ToeicData {
  import opened VocabularyTypes
  import opened Text

  /** The tags the pattern `\s*\((n|v|adj|adv)\)$` recognises. */
  const PosTags: seq<string> := ["n", "v", "adj", "adv"]

  /** The length of a final "(n)", "(v)", "(adj)" or "(adv)" of `s`, or 0
      when `s` ends with none of them. */
  function TagLength(s: string): (n: nat)
    ensures n <= |s|
  {
    var l := |s|;
    if l >= 3 && s[l - 3] == '(' && (s[l - 2] == 'n' || s[l - 2] == 'v') && s[l - 1] == ')' then 3
    else if l >= 5 && s[l - 5] == '(' && s[l - 4] == 'a' && s[l - 3] == 'd'
            && (s[l - 2] == 'j' || s[l - 2] == 'v') && s[l - 1] == ')' then 5
    else 0
  }

  /** `re.sub(r'\s*\((n|v|adj|adv)\)$', '', s)`: the only possible match
      starts at the whitespace run before a final tag, and `$` also matches
      just before a final line feed, which then stays. */
  function RemoveTag(s: string): string
  {
    var n := TagLength(s);
    if n > 0 then TrimEnd(s[..|s| - n], PyWhitespace)
    else if s != [] && s[|s| - 1] == '\n' && TagLength(s[..|s| - 1]) > 0 then
      TrimEnd(s[..|s| - 1 - TagLength(s[..|s| - 1])], PyWhitespace) + "\n"
    else s
  }

  /** The cleaned word of one entry: the tag removed, then both ends
      stripped. */
  function CleanWord(s: string): string
  {
    PyStrip(RemoveTag(s))
  }

  /** A word followed by a tag is recognised as tagged, with the tag's
      length. */
  lemma TagLengthOfTagged(w: string, tag: string)
    requires tag in PosTags
    ensures TagLength(w + "(" + tag + ")") == |tag| + 2
  {
    var s := w + "(" + tag + ")";
    var l := |s|;
    assert s[l - 1] == ')' && s[l - |tag| - 2] == '(';
    if |tag| == 1 {
      assert s[l - 2] == tag[0];
    } else {
      assert s[l - 4] == tag[0] && s[l - 3] == tag[1] && s[l - 2] == tag[2];
    }
  }

  /** A tag and the whitespace before it are removed, and the rest is
      stripped: the result is the stripped word. */
  lemma CleanTaggedWord(w: string, space: string, tag: string)
    requires tag in PosTags
    requires AllIn(space, PyWhitespace)
    ensures CleanWord(w + space + "(" + tag + ")") == PyStrip(w)
  {
    var s := w + space + "(" + tag + ")";
    TagLengthOfTagged(w + space, tag);
    assert s[..|s| - (|tag| + 2)] == w + space;
    TrimEndAppendSpace(w, space, PyWhitespace);
    TrimAfterTrimEnd(w, PyWhitespace);
  }

  /** `$` also matches before a final line feed: the tag still goes, the
      line feed stays until the strip removes it. */
  lemma CleanTaggedBeforeLineFeed(w: string, space: string, tag: string)
    requires tag in PosTags
    requires AllIn(space, PyWhitespace)
    ensures CleanWord(w + space + "(" + tag + ")" + "\n") == PyStrip(w)
  {
    var x := w + space + "(" + tag + ")";
    var s := x + "\n";
    assert s[|s| - 1] == '\n' && s[..|s| - 1] == x;
    TagLengthOfTagged(w + space, tag);
    assert TagLength(s) == 0;
    assert TagLength(s[..|s| - 1]) == |tag| + 2;
    assert s[..|s| - 1 - (|tag| + 2)] == w + space;
    TrimEndAppendSpace(w, space, PyWhitespace);
    assert RemoveTag(s) == TrimEnd(w, PyWhitespace) + "\n";
    TrimAppendSpace(TrimEnd(w, PyWhitespace), "\n", PyWhitespace);
    TrimAfterTrimEnd(w, PyWhitespace);
  }

  /** TagLength recognises nothing but a final tag: a non-zero length is
      that of one of the four tags in brackets, which end the string. With
      TagLengthOfTagged this makes TagLength(s) > 0 exactly when `s` ends in
      "(n)", "(v)", "(adj)" or "(adv)". */
  lemma TagLengthIsFinalTag(s: string)
    ensures TagLength(s) == 0 || TagLength(s) == 3 || TagLength(s) == 5
    ensures TagLength(s) > 0 ==>
      var n := TagLength(s);
      var tag := s[|s| - n + 1..|s| - 1];
      && tag in PosTags
      && s == s[..|s| - n] + "(" + tag + ")"
  {
    var n := TagLength(s);
    if n > 0 {
      var l := |s|;
      var tag := s[l - n + 1..l - 1];
      if n == 3 {
        assert tag == [s[l - 2]];
        assert tag == "n" || tag == "v";
      } else {
        assert tag == [s[l - 4], s[l - 3], s[l - 2]];
        assert tag == "adj" || tag == "adv";
      }
      assert s == s[..l - n] + "(" + tag + ")";
    }
  }

  /** An entry without a final tag (and not ending in a tag and a line feed)
      is only stripped. */
  lemma CleanUntaggedWord(s: string)
    requires TagLength(s) == 0
    requires s == [] || s[|s| - 1] != '\n' || TagLength(s[..|s| - 1]) == 0
    ensures CleanWord(s) == PyStrip(s)
  {
  }

  /** A tagged entry of the data (python.py line 8) loses the tag and the
      space before it. */
  lemma CleanNounExample()
    ensures CleanWord("agreement (n)") == "agreement"
  {
    CleanTaggedWord("agreement", " ", "n");
    assert "agreement (n)" == "agreement" + " " + "(" + "n" + ")";
  }

  /** The same for a three-letter tag. */
  lemma CleanAdjectiveExample()
    ensures CleanWord("binding (adj)") == "binding"
  {
    CleanTaggedWord("binding", " ", "adj");
    assert "binding (adj)" == "binding" + " " + "(" + "adj" + ")";
  }

  /** The entries written without a tag (python.py lines 476, 489 and 619)
      come out unchanged. */
  lemma CleanUntaggedExamples()
    ensures CleanWord("complimentary") == "complimentary"
    ensures CleanWord("implant") == "implant"
  {
  }

  /** The same for an entry ending in a letter that closes no tag. */
  lemma CleanHyphenatedExample()
    ensures CleanWord("high-speed") == "high-speed"
  {
  }

  /** Only the final tag goes; an earlier one stays. */
  lemma CleanRemovesOneTag()
    ensures CleanWord("take (n) (v)") == "take (n)"
  {
    CleanTaggedWord("take (n)", " ", "v");
    assert "take (n) (v)" == "take (n)" + " " + "(" + "v" + ")";
  }

  /** A bracketed word that is not one of the four tags stays. */
  lemma CleanKeepsOtherBrackets()
    ensures CleanWord("take (noun)") == "take (noun)"
  {
  }

  /** One topic's three parallel lists. */
  datatype Topic = Topic(words: seq<string>, pronounce: seq<string>, meaning: seq<string>)

  /** One output record. */
  datatype Item = Item(word: string, pronounce: string, meaning: string)

  /** The IndexError that stops the script: the topic and the index read. */
  datatype IndexError = IndexError(topic: nat, index: nat)

  /** A topic the loop can zip without reading past a list. */
  predicate Zippable(t: Topic)
  {
    |t.pronounce| >= |t.words| && |t.meaning| >= |t.words|
  }

  /** Record `i` of a topic: the cleaned word `i`, the pronunciation `i`
      and the meaning `i`. */
  function ItemAt(t: Topic, i: nat): Item
    requires i < |t.words| && i < |t.pronounce| && i < |t.meaning|
  {
    Item(CleanWord(t.words[i]), t.pronounce[i], t.meaning[i])
  }

  /** The first `n` records of a topic, in index order. */
  function TopicItems(t: Topic, n: nat): seq<Item>
    requires n <= |t.words| && n <= |t.pronounce| && n <= |t.meaning|
  {
    if n == 0 then [] else TopicItems(t, n - 1) + [ItemAt(t, n - 1)]
  }

  /** The records of all topics, topic after topic. */
  function AllItems(topics: seq<Topic>): seq<Item>
    requires forall k :: 0 <= k < |topics| ==> Zippable(topics[k])
  {
    if topics == [] then []
    else
      var last := topics[|topics| - 1];
      assert Zippable(last);
      AllItems(topics[..|topics| - 1]) + TopicItems(last, |last.words|)
  }

  /** The number of words over all topics. */
  function TotalWords(topics: seq<Topic>): nat
  {
    if topics == [] then 0 else TotalWords(topics[..|topics| - 1]) + |topics[|topics| - 1].words|
  }

  /** A topic's first `n` records are `n` records. */
  lemma {:induction false} TopicItemsLength(t: Topic, n: nat)
    requires n <= |t.words| && n <= |t.pronounce| && n <= |t.meaning|
    ensures |TopicItems(t, n)| == n
  {
    if n > 0 {
      TopicItemsLength(t, n - 1);
    }
  }

  /** Record `i` among a topic's first `n` records is its record `i`. */
  lemma {:induction false} TopicItemsAt(t: Topic, n: nat, i: nat)
    requires n <= |t.words| && n <= |t.pronounce| && n <= |t.meaning|
    requires i < n
    ensures i < |TopicItems(t, n)| && TopicItems(t, n)[i] == ItemAt(t, i)
  {
    TopicItemsLength(t, n);
    TopicItemsLength(t, n - 1);
    if i < n - 1 {
      TopicItemsAt(t, n - 1, i);
    }
  }

  /** One more record of the current topic, appended to the records built so
      far. */
  lemma TopicItemsSnoc(done: seq<Item>, t: Topic, i: nat)
    requires i < |t.words| && i < |t.pronounce| && i < |t.meaning|
    ensures (done + TopicItems(t, i)) + [ItemAt(t, i)] == done + TopicItems(t, i + 1)
  {
  }

  /** The records of one more topic. */
  lemma AllItemsSnoc(topics: seq<Topic>, k: nat)
    requires k < |topics|
    requires forall j :: 0 <= j <= k ==> Zippable(topics[j])
    ensures AllItems(topics[..k + 1]) == AllItems(topics[..k]) + TopicItems(topics[k], |topics[k].words|)
  {
    assert topics[..k + 1][..k] == topics[..k];
  }

  /** The output has one record per word. */
  lemma {:induction false} AllItemsLength(topics: seq<Topic>)
    requires forall k :: 0 <= k < |topics| ==> Zippable(topics[k])
    ensures |AllItems(topics)| == TotalWords(topics)
  {
    if topics != [] {
      var last := topics[|topics| - 1];
      AllItemsLength(topics[..|topics| - 1]);
      TopicItemsLength(last, |last.words|);
    }
  }

  /** Record `i` of topic `k` sits right after the records of the topics
      before it. */
  lemma {:induction false} AllItemsOrder(topics: seq<Topic>, k: nat, i: nat)
    requires forall j :: 0 <= j < |topics| ==> Zippable(topics[j])
    requires k < |topics| && i < |topics[k].words|
    ensures TotalWords(topics[..k]) + i < |AllItems(topics)|
    ensures AllItems(topics)[TotalWords(topics[..k]) + i] == ItemAt(topics[k], i)
  {
    var init := topics[..|topics| - 1];
    var last := topics[|topics| - 1];
    AllItemsLength(init);
    TopicItemsLength(last, |last.words|);
    if k == |topics| - 1 {
      assert topics[..k] == init;
      TopicItemsAt(last, |last.words|, i);
    } else {
      assert init[..k] == topics[..k];
      AllItemsOrder(init, k, i);
    }
  }

  /** The shorter of a topic's pronunciation and meaning lists' lengths. */
  function ShorterList(t: Topic): nat
  {
    if |t.pronounce| < |t.meaning| then |t.pronounce| else |t.meaning|
  }

  /** One topic's loop: its records appended to `items` in index order, or
      the index at which reading the pronunciation or meaning list fails. */
  method AppendTopic(items: seq<Item>, t: Topic) returns (r: Result<seq<Item>, nat>)
    ensures r.Success? <==> Zippable(t)
    ensures r.Success? ==> r.value == items + TopicItems(t, |t.words|)
    ensures r.Failure? ==> r.error == ShorterList(t)
  {
    var out := items;
    var i := 0;
    while i < |t.words|
      invariant 0 <= i <= |t.words|
      invariant i <= |t.pronounce| && i <= |t.meaning|
      invariant out == items + TopicItems(t, i)
    {
      if i >= |t.pronounce| || i >= |t.meaning| {
        return Failure(i);
      }
      var cleanedWord := CleanWord(t.words[i]);
      TopicItemsSnoc(items, t, i);
      out := out + [Item(cleanedWord, t.pronounce[i], t.meaning[i])];
      i := i + 1;
    }
    return Success(out);
  }

  /** The script's loops: the records of every topic in order, or the
      IndexError of the first topic whose pronunciation or meaning list is
      shorter than its word list, raised at the shorter list's length. */
  method BuildVocabulary(topics: seq<Topic>) returns (r: Result<seq<Item>, IndexError>)
    ensures r.Success? <==> forall k :: 0 <= k < |topics| ==> Zippable(topics[k])
    ensures r.Success? ==> r.value == AllItems(topics)
    ensures r.Failure? ==>
      var k := r.error.topic;
      && k < |topics| && !Zippable(topics[k])
      && (forall j :: 0 <= j < k ==> Zippable(topics[j]))
      && r.error.index == ShorterList(topics[k])
  {
    var items: seq<Item> := [];
    var k := 0;
    while k < |topics|
      invariant 0 <= k <= |topics|
      invariant forall j :: 0 <= j < k ==> Zippable(topics[j])
      invariant items == AllItems(topics[..k])
    {
      var appended := AppendTopic(items, topics[k]);
      if appended.Failure? {
        return Failure(IndexError(k, appended.error));
      }
      AllItemsSnoc(topics, k);
      items := appended.value;
      k := k + 1;
    }
    assert topics[..|topics|] == topics;
    return Success(items);
  }
}
