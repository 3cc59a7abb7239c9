/** The inverted word index and the path index, over any type of word: how they are built, one
    document at a time, and how a query is answered from posting lists. */
module InvertedIndex {
  import opened Seqs

  type Postings<W(==)> = map<W, seq<nat>>

  function PostingsIn<W>(index: Postings<W>, w: W): seq<nat> {
    if w in index then index[w] else []
  }

  /** `word_index.entry(word).or_default().push(idx)`. */
  function AddWord<W>(index: Postings<W>, word: W, idx: nat): Postings<W> {
    index[word := PostingsIn(index, word) + [idx]]
  }

  function AddWords<W>(index: Postings<W>, words: seq<W>, idx: nat): Postings<W> {
    if words == [] then index
    else AddWord(AddWords(index, words[..|words| - 1], idx), words[|words| - 1], idx)
  }

  /** The index of a list of documents, each given by its words. */
  function IndexOf<W>(docs: seq<seq<W>>): Postings<W> {
    if docs == [] then map[]
    else AddWords(IndexOf(docs[..|docs| - 1]), docs[|docs| - 1], |docs| - 1)
  }

  /** The last position of every key. */
  function LastPositions<K>(keys: seq<K>): map<K, nat> {
    if keys == [] then map[]
    else LastPositions(keys[..|keys| - 1])[keys[|keys| - 1] := |keys| - 1]
  }

  lemma IndexSnoc<W>(docs: seq<seq<W>>, doc: seq<W>)
    ensures IndexOf(docs + [doc]) == AddWords(IndexOf(docs), doc, |docs|)
  {
    assert (docs + [doc])[..|docs|] == docs;
  }

  lemma PositionsSnoc<K>(keys: seq<K>, key: K)
    ensures LastPositions(keys + [key]) == LastPositions(keys)[key := |keys|]
  {
    assert (keys + [key])[..|keys|] == keys;
  }

  /** The index of a list of things with words grows by one document with each thing. */
  lemma IndexOfMapSnoc<T(!new), W>(s: seq<T>, x: T, words: T -> seq<W>)
    ensures IndexOf(Map(s + [x], words)) == AddWords(IndexOf(Map(s, words)), words(x), |s|)
  {
    MapSnoc(s, x, words);
    IndexSnoc(Map(s, words), words(x));
  }

  lemma PositionsOfMapSnoc<T(!new), K>(s: seq<T>, x: T, key: T -> K)
    ensures LastPositions(Map(s + [x], key)) == LastPositions(Map(s, key))[key(x) := |s|]
  {
    MapSnoc(s, x, key);
    PositionsSnoc(Map(s, key), key(x));
  }

  predicate IsLastPosition<K(==)>(keys: seq<K>, key: K, i: nat) {
    i < |keys| && keys[i] == key && key !in keys[i + 1..]
  }

  lemma {:induction false} LastPositionsExact<K(!new)>(keys: seq<K>, key: K)
    ensures key in LastPositions(keys) <==> key in keys
    ensures key in keys ==> IsLastPosition(keys, key, LastPositions(keys)[key])
  {
    if keys != [] {
      var init, last := keys[..|keys| - 1], keys[|keys| - 1];
      LastPositionsExact(init, key);
      assert keys == init + [last];
      if key in init && key != last {
        var i := LastPositions(init)[key];
        assert keys[i + 1..] == init[i + 1..] + [last];
      }
    }
  }

  // ---------------------------------------------------------------- posting lists

  function Times(n: nat, x: nat): (r: seq<nat>)
    ensures |r| == n && forall i | 0 <= i < n :: r[i] == x
  {
    if n == 0 then [] else Times(n - 1, x) + [x]
  }

  lemma {:induction false} CountTimes(n: nat, x: nat, y: nat)
    ensures Count(Times(n, x), y) == if x == y then n else 0
  {
    if n > 0 {
      CountTimes(n - 1, x, y);
      CountConcat(Times(n - 1, x), [x], y);
    }
  }

  lemma CountSnoc<T(!new)>(s: seq<T>, w: T)
    requires s != []
    ensures Count(s, w) == Count(s[..|s| - 1], w) + (if s[|s| - 1] == w then 1 else 0)
  {
    assert s == s[..|s| - 1] + [s[|s| - 1]];
    CountConcat(s[..|s| - 1], [s[|s| - 1]], w);
  }

  /** A document is posted once for each occurrence of the word in it. */
  lemma {:induction false} AddWordsPostings<W(!new)>(index: Postings<W>, words: seq<W>, idx: nat, w: W)
    ensures PostingsIn(AddWords(index, words, idx), w) == PostingsIn(index, w) + Times(Count(words, w), idx)
  {
    if words != [] {
      AddWordsPostings(index, words[..|words| - 1], idx, w);
      CountSnoc(words, w);
    }
  }

  predicate Ascending(s: seq<nat>) {
    forall i, j | 0 <= i < j < |s| :: s[i] <= s[j]
  }

  predicate AllBelow(s: seq<nat>, bound: nat) {
    forall i | 0 <= i < |s| :: s[i] < bound
  }

  /** Posting lists are in ascending order of document. */
  lemma {:induction false} PostingsAscend<W(!new)>(docs: seq<seq<W>>, w: W)
    ensures Ascending(PostingsIn(IndexOf(docs), w)) && AllBelow(PostingsIn(IndexOf(docs), w), |docs|)
  {
    if docs != [] {
      var init := docs[..|docs| - 1];
      PostingsAscend(init, w);
      AddWordsPostings(IndexOf(init), docs[|docs| - 1], |init|, w);
      hide AddWords, IndexOf;
      AscendTimes(PostingsIn(IndexOf(init), w), Count(docs[|docs| - 1], w), |init|);
    }
  }

  lemma AscendTimes(s: seq<nat>, times: nat, idx: nat)
    requires Ascending(s) && AllBelow(s, idx)
    ensures Ascending(s + Times(times, idx)) && AllBelow(s + Times(times, idx), idx + 1)
  {
  }

  /** A posting list holds each document exactly as often as the document holds the word. */
  lemma {:induction false} PostingsCount<W(!new)>(docs: seq<seq<W>>, w: W, i: nat)
    requires i < |docs|
    ensures Count(PostingsIn(IndexOf(docs), w), i) == Count(docs[i], w)
  {
    var init := docs[..|docs| - 1];
    var before := PostingsIn(IndexOf(init), w);
    var times := Count(docs[|docs| - 1], w);
    AddWordsPostings(IndexOf(init), docs[|docs| - 1], |init|, w);
    CountConcat(before, Times(times, |init|), i);
    CountTimes(times, |init|, i);
    if i < |init| {
      PostingsCount(init, w, i);
    } else {
      PostingsAscend(init, w);
      assert Count(before, i) == 0;
    }
  }

  lemma PostedIsInDocument<W(!new)>(docs: seq<seq<W>>, w: W, i: nat)
    ensures i in PostingsIn(IndexOf(docs), w) <==> i < |docs| && w in docs[i]
  {
    PostingsAscend(docs, w);
    if i < |docs| {
      PostingsCount(docs, w, i);
    }
  }

  // ---------------------------------------------------------------- queries

  /** Words with fewer postings first. */
  function Rarer<W>(index: Postings<W>): (W, W) -> bool {
    (a: W, b: W) => |PostingsIn(index, a)| <= |PostingsIn(index, b)|
  }

  /** The document is in the postings of every one of the words. */
  function InAll<W(!new)>(index: Postings<W>, words: seq<W>): nat -> bool {
    (i: nat) => forall w | w in words :: i in PostingsIn(index, w)
  }

  function InNone<W(!new)>(index: Postings<W>, words: seq<W>): nat -> bool {
    (i: nat) => forall w | w in words :: i !in PostingsIn(index, w)
  }

  /** The rarest wanted word's postings that are in the postings of every wanted and of no
      unwanted word. */
  function Select<W(!new)>(index: Postings<W>, wanted: seq<W>, unwanted: seq<W>): seq<nat> {
    if wanted == [] then []
    else
      Filter(Filter(PostingsIn(index, FirstLeast(wanted, Rarer(index))), InAll(index, wanted)), InNone(index, unwanted))
  }

  /** The document holds every wanted word and no unwanted word. */
  predicate Matches<W(==)>(doc: seq<W>, wanted: seq<W>, unwanted: seq<W>) {
    && (forall w | w in wanted :: w in doc)
    && (forall w | w in unwanted :: w !in doc)
  }

  lemma {:induction false} FilterAscends(s: seq<nat>, p: nat -> bool)
    requires Ascending(s)
    ensures Ascending(Filter(s, p))
  {
    if s != [] {
      FilterAscends(s[1..], p);
      var rest := Filter(s[1..], p);
      forall j | 0 <= j < |rest| ensures s[0] <= rest[j] {
        assert rest[j] in s[1..];
      }
    }
  }

  lemma PostedEverywhere<W(!new)>(docs: seq<seq<W>>, wanted: seq<W>, unwanted: seq<W>, i: nat)
    requires i < |docs|
    ensures InAll(IndexOf(docs), wanted)(i) && InNone(IndexOf(docs), unwanted)(i)
      <==> Matches(docs[i], wanted, unwanted)
  {
    forall w ensures i in PostingsIn(IndexOf(docs), w) <==> w in docs[i] {
      PostedIsInDocument(docs, w, i);
    }
  }

  /** The selection is, as a set, what a filter over all documents keeps, in ascending order. */
  lemma SelectIsBruteForce<W(!new)>(docs: seq<seq<W>>, wanted: seq<W>, unwanted: seq<W>)
    requires wanted != []
    ensures var full := Select(IndexOf(docs), wanted, unwanted);
            && Ascending(full) && AllBelow(full, |docs|)
            && (forall i: nat | i < |docs| :: i in full <==> Matches(docs[i], wanted, unwanted))
  {
    var index := IndexOf(docs);
    var rarest := FirstLeast(wanted, Rarer(index));
    var all := Filter(PostingsIn(index, rarest), InAll(index, wanted));
    var full := Select(index, wanted, unwanted);
    PostingsAscend(docs, rarest);
    FilterAscends(PostingsIn(index, rarest), InAll(index, wanted));
    FilterAscends(all, InNone(index, unwanted));
    forall k | 0 <= k < |full| ensures full[k] < |docs| {
      assert full[k] in full;
      assert full[k] in PostingsIn(index, rarest);
    }
    forall i: nat | i < |docs| ensures i in full <==> Matches(docs[i], wanted, unwanted) {
      PostedEverywhere(docs, wanted, unwanted, i);
      if InAll(index, wanted)(i) {
        assert rarest in wanted;
      }
    }
  }

  /** A matching document comes as often as it holds a rarest wanted word. */
  lemma SelectMultiplicity<W(!new)>(docs: seq<seq<W>>, wanted: seq<W>, unwanted: seq<W>, i: nat) returns (rarest: W)
    requires wanted != [] && i < |docs|
    ensures rarest in wanted
    ensures forall w | w in wanted :: |PostingsIn(IndexOf(docs), rarest)| <= |PostingsIn(IndexOf(docs), w)|
    ensures Count(Select(IndexOf(docs), wanted, unwanted), i)
         == if Matches(docs[i], wanted, unwanted) then Count(docs[i], rarest) else 0
  {
    var index := IndexOf(docs);
    rarest := FirstLeast(wanted, Rarer(index));
    assert TotalPreorder(Rarer(index));
    FirstLeastIsLeast(wanted, Rarer(index));
    forall w | w in wanted ensures |PostingsIn(index, rarest)| <= |PostingsIn(index, w)| {
      assert Rarer(index)(rarest, w);
    }
    CountFilter(PostingsIn(index, rarest), InAll(index, wanted), i);
    CountFilter(Filter(PostingsIn(index, rarest), InAll(index, wanted)), InNone(index, unwanted), i);
    PostedEverywhere(docs, wanted, unwanted, i);
    PostingsCount(docs, rarest, i);
  }

  // ---------------------------------------------------------------- the loops

  method PostWords<W(==)>(index: Postings<W>, words: seq<W>, idx: nat) returns (posted: Postings<W>)
    ensures posted == AddWords(index, words, idx)
  {
    posted := index;
    for k := 0 to |words|
      invariant posted == AddWords(index, words[..k], idx)
    {
      assert words[..k + 1][..k] == words[..k];
      posted := AddWord(posted, words[k], idx);
    }
    assert words[..|words|] == words;
  }

  /** One more `retain` narrows the selection by one more word. */
  lemma NarrowByWord<W(!new)>(rarest: seq<nat>, index: Postings<W>, words: seq<W>, word: W, keep: nat -> bool)
    requires forall i | i in rarest :: keep(i) == (i in PostingsIn(index, word))
    ensures Filter(Filter(rarest, InAll(index, words)), keep) == Filter(rarest, InAll(index, words + [word]))
  {
    FilterTwice(rarest, InAll(index, words), keep, InAll(index, words + [word]));
  }

  lemma {:induction false} FilterSame<T(!new)>(s: seq<T>, p: T -> bool, q: T -> bool)
    requires forall x | x in s :: p(x) == q(x)
    ensures Filter(s, p) == Filter(s, q)
  {
    if s != [] {
      assert s[0] in s;
      FilterSame(s[1..], p, q);
    }
  }

  /** A wanted word without postings leaves nothing. */
  lemma MissingWordSelectsNothing<W(!new)>(index: Postings<W>, wanted: seq<W>, unwanted: seq<W>, w: W)
    requires w in wanted && PostingsIn(index, w) == []
    ensures Select(index, wanted, unwanted) == []
  {
    FilterNone(PostingsIn(index, FirstLeast(wanted, Rarer(index))), InAll(index, wanted));
  }

  /** When some of the words leave nothing, all of them do. */
  lemma NothingLeft<W(!new)>(rarest: seq<nat>, index: Postings<W>, wordSets: seq<W>, k: nat)
    requires k <= |wordSets| && Filter(rarest, InAll(index, wordSets[..k])) == []
    ensures Filter(rarest, InAll(index, wordSets)) == []
  {
    forall i | i in rarest ensures !InAll(index, wordSets)(i) {
      assert i !in Filter(rarest, InAll(index, wordSets[..k]));
      assert !InAll(index, wordSets[..k])(i);
    }
    FilterNone(rarest, InAll(index, wordSets));
  }

  lemma FirstWordNarrowsNothing<W(!new)>(index: Postings<W>, wordSets: seq<W>)
    requires wordSets != []
    ensures Filter(PostingsIn(index, wordSets[0]), InAll(index, wordSets[..1])) == PostingsIn(index, wordSets[0])
  {
    FilterAll(PostingsIn(index, wordSets[0]), InAll(index, wordSets[..1]));
  }

  lemma NarrowByNext<W(!new)>(rarest: seq<nat>, index: Postings<W>, wordSets: seq<W>, k: nat, keep: nat -> bool)
    requires k < |wordSets| && forall i :: keep(i) == (i in PostingsIn(index, wordSets[k]))
    ensures Filter(Filter(rarest, InAll(index, wordSets[..k])), keep) == Filter(rarest, InAll(index, wordSets[..k + 1]))
  {
    assert wordSets[..k] + [wordSets[k]] == wordSets[..k + 1];
    NarrowByWord(rarest, index, wordSets[..k], wordSets[k], keep);
  }

  /** Start from the first word's postings and retain, word by word, what every word has. */
  method NarrowAll<W(==, !new)>(index: Postings<W>, wordSets: seq<W>) returns (matching: seq<nat>)
    requires wordSets != []
    ensures matching == Filter(PostingsIn(index, wordSets[0]), InAll(index, wordSets))
  {
    var rarest := PostingsIn(index, wordSets[0]);
    matching := rarest;
    FirstWordNarrowsNothing(index, wordSets);
    for k := 1 to |wordSets|
      invariant matching == Filter(rarest, InAll(index, wordSets[..k]))
    {
      var other := PostingsIn(index, wordSets[k]);
      NarrowByNext(rarest, index, wordSets, k, (i: nat) => i in other);
      matching := Filter(matching, (i: nat) => i in other);
      if matching == [] {
        NothingLeft(rarest, index, wordSets, k + 1);
        return [];
      }
    }
    assert wordSets[..|wordSets|] == wordSets;
  }

  /** The search: order the words by rarity, intersect their postings, drop what is excluded. */
  method Intersect<W(==, !new)>(index: Postings<W>, wanted: seq<W>, unwanted: seq<W>) returns (matching: seq<nat>)
    ensures matching == Select(index, wanted, unwanted)
  {
    if wanted == [] {
      return [];
    }
    if exists w | w in wanted :: w !in index {
      var w :| w in wanted && w !in index;
      MissingWordSelectsNothing(index, wanted, unwanted, w);
      return [];
    }
    var wordSets := StableSort(wanted, Rarer(index));
    SortedHead(wanted, Rarer(index));
    matching := NarrowAll(index, wordSets);
    SameWords(index, wanted);
    FilterSame(PostingsIn(index, wordSets[0]), InAll(index, wordSets), InAll(index, wanted));
    var excluded := CollectPostings(index, unwanted);
    FilterSame(matching, (i: nat) => i !in excluded, InNone(index, unwanted));
    matching := Filter(matching, (i: nat) => i !in excluded);
  }

  lemma SameWords<W(!new)>(index: Postings<W>, wanted: seq<W>)
    ensures forall w :: w in StableSort(wanted, Rarer(index)) <==> w in wanted
  {
    SortPermutes(wanted, Rarer(index));
    assert forall w :: w in wanted <==> w in multiset(wanted);
    var sorted := StableSort(wanted, Rarer(index));
    assert forall w :: w in sorted <==> w in multiset(sorted);
  }

  method CollectPostings<W(==, !new)>(index: Postings<W>, words: seq<W>) returns (posted: set<nat>)
    ensures forall i :: i in posted <==> exists w | w in words :: i in PostingsIn(index, w)
  {
    posted := {};
    for k := 0 to |words|
      invariant forall i :: i in posted <==> exists w | w in words[..k] :: i in PostingsIn(index, w)
    {
      assert words[..k + 1] == words[..k] + [words[k]];
      var postings := PostingsIn(index, words[k]);
      posted := posted + set i | i in postings;
    }
    assert words[..|words|] == words;
  }
}
