/** QueryRetrievalModel: answers one query against the index. The query
    content is split on single spaces; for every token the collection
    frequency is fetched once and cached on the model; tokens that occur in
    the collection contribute their posting lists to a map
    docid -> (term -> in-document frequency); that map is scored (the scoring
    is a stub returning no documents) and the scored list is sorted by
    descending score.

    The index reader is a snapshot of its two lookups, collection frequency
    and posting list, each a function of the term. */
module Retrieval {
  import opened Wrappers
  import opened JavaStrings
  import opened TopicExtraction
  import opened Ranking

  /** One posting-list entry: a document id and the term's frequency in it. */
  datatype Posting = Posting(doc: int, freq: int)

  /** The index reader's two lookups. */
  datatype Index = Index(collectionFreq: string -> int, postingList: string -> seq<Posting>)

  /** docid -> (term -> in-document frequency). */
  type DocTermFreqs = map<int, map<string, int>>

  // ---------------------------------------------------------------------------
  // Posting lists

  /** The documents a posting list mentions. */
  function DocsOf(ps: seq<Posting>): set<int> {
    set p | p in ps :: p.doc
  }

  lemma DocsOfInit(ps: seq<Posting>)
    requires ps != []
    ensures DocsOf(ps) == DocsOf(ps[..|ps| - 1]) + {ps[|ps| - 1].doc}
  {
    var init := ps[..|ps| - 1];
    assert ps == init + [ps[|ps| - 1]];
    forall d | d in DocsOf(ps) ensures d in DocsOf(init) + {ps[|ps| - 1].doc} {
      var p :| p in ps && p.doc == d;
    }
    forall d | d in DocsOf(init) ensures d in DocsOf(ps) {
      var p :| p in init && p.doc == d;
      assert p in ps;
    }
  }

  /** The frequency of the last entry for d, the one a later put leaves in
      the map; None when d has no entry. */
  function LastFreq(ps: seq<Posting>, d: int): (r: Option<int>)
    ensures r.Some? <==> d in DocsOf(ps)
  {
    if ps == [] then None
    else
      DocsOfInit(ps);
      if ps[|ps| - 1].doc == d then Some(ps[|ps| - 1].freq) else LastFreq(ps[..|ps| - 1], d)
  }

  /** LastFreq reports an entry of the list for d with no later entry for d. */
  lemma {:induction false} LastFreqIsLastEntry(ps: seq<Posting>, d: int)
    requires d in DocsOf(ps)
    ensures exists k :: 0 <= k < |ps| && ps[k] == Posting(d, LastFreq(ps, d).value) &&
                        forall k' :: k < k' < |ps| ==> ps[k'].doc != d
  {
    var init := ps[..|ps| - 1];
    var n := |ps| - 1;
    if ps[n].doc == d {
      assert ps[n] == Posting(d, LastFreq(ps, d).value);
    } else {
      DocsOfInit(ps);
      LastFreqIsLastEntry(init, d);
      var k :| 0 <= k < |init| && init[k] == Posting(d, LastFreq(init, d).value) &&
               forall k' :: k < k' < |init| ==> init[k'].doc != d;
      assert ps[k] == init[k];
      forall k' | k < k' < |ps| ensures ps[k'].doc != d {
        if k' < n {
          assert ps[k'] == init[k'];
        }
      }
    }
  }

  /** The inner map for d, or a fresh empty one (getOrDefault). */
  function InnerOf(m: DocTermFreqs, d: int): map<string, int> {
    if d in m then m[d] else map[]
  }

  /** The inner loop of populateQueryResult over one token's postings, in
      order: each entry (d, f) sets m[d][term] to f. */
  function AddPostings(m: DocTermFreqs, term: string, ps: seq<Posting>): DocTermFreqs {
    if ps == [] then m
    else
      var m' := AddPostings(m, term, ps[..|ps| - 1]);
      var p := ps[|ps| - 1];
      m'[p.doc := InnerOf(m', p.doc)[term := p.freq]]
  }

  /** After the postings of term, document d is in the map when it was
      before or the list mentions it; a listed document gets term mapped to
      its last frequency on top of what it had, any other keeps its inner map. */
  lemma {:induction false} AddPostingsAt(m: DocTermFreqs, term: string, ps: seq<Posting>, d: int)
    ensures d in AddPostings(m, term, ps) <==> d in m || d in DocsOf(ps)
    ensures d in AddPostings(m, term, ps) ==>
      AddPostings(m, term, ps)[d] ==
        if d in DocsOf(ps) then InnerOf(m, d)[term := LastFreq(ps, d).value] else m[d]
  {
    if ps != [] {
      var init := ps[..|ps| - 1];
      var p := ps[|ps| - 1];
      AddPostingsAt(m, term, init, d);
      DocsOfInit(ps);
      if d == p.doc {
        assert LastFreq(ps, d) == Some(p.freq);
      } else {
        assert LastFreq(ps, d) == LastFreq(init, d);
      }
    }
  }

  // ---------------------------------------------------------------------------
  // The aggregated map

  /** Token t brings document d into the map: t occurs in the collection and
      its posting list mentions d. */
  predicate Contributes(idx: Index, t: string, d: int) {
    idx.collectionFreq(t) != 0 && d in DocsOf(idx.postingList(t))
  }

  /** populateQueryResult's outer loop over the tokens, in order; a token
      whose collection frequency is 0 is skipped. */
  function Aggregate(idx: Index, ts: seq<string>): DocTermFreqs {
    if ts == [] then map[]
    else
      var m := Aggregate(idx, ts[..|ts| - 1]);
      var t := ts[|ts| - 1];
      if idx.collectionFreq(t) == 0 then m else AddPostings(m, t, idx.postingList(t))
  }

  /** One more token: skipped when its collection frequency is 0, otherwise
      its postings are added. */
  lemma AggregateStep(idx: Index, ts: seq<string>, i: nat)
    requires i < |ts|
    ensures Aggregate(idx, ts[..i + 1]) ==
      if idx.collectionFreq(ts[i]) == 0 then Aggregate(idx, ts[..i])
      else AddPostings(Aggregate(idx, ts[..i]), ts[i], idx.postingList(ts[i]))
  {
    assert ts[..i + 1][..i] == ts[..i];
  }

  /** The map holds document d exactly when some token contributes it; its
      inner map holds exactly the tokens that contribute d, each mapped to
      the frequency of the last entry for d in that token's posting list. */
  lemma {:induction false} AggregateAt(idx: Index, ts: seq<string>, d: int)
    ensures d in Aggregate(idx, ts) <==> exists t :: t in ts && Contributes(idx, t, d)
    ensures d in Aggregate(idx, ts) ==> forall t ::
      (t in Aggregate(idx, ts)[d] <==> t in ts && Contributes(idx, t, d)) &&
      (t in Aggregate(idx, ts)[d] ==> LastFreq(idx.postingList(t), d) == Some(Aggregate(idx, ts)[d][t]))
  {
    if ts != [] {
      var init := ts[..|ts| - 1];
      var last := ts[|ts| - 1];
      assert ts == init + [last];
      AggregateAt(idx, init, d);
      var m := Aggregate(idx, init);
      assert last in ts;
      if idx.collectionFreq(last) != 0 {
        AddPostingsAt(m, last, idx.postingList(last), d);
      }
      if exists t :: t in ts && Contributes(idx, t, d) {
        var t :| t in ts && Contributes(idx, t, d);
        if t != last {
          assert t in init;
        }
      }
      if exists t :: t in init && Contributes(idx, t, d) {
        var t :| t in init && Contributes(idx, t, d);
        assert t in ts;
      }
    }
  }

  /** The same map stated as one comprehension, independent of token order
      and of repetitions. */
  function Expected(idx: Index, ts: seq<string>): DocTermFreqs {
    map d | d in CandidateDocs(idx, ts) :: TermFreqsFor(idx, ts, d)
  }

  function CandidateDocs(idx: Index, ts: seq<string>): set<int> {
    set t, d | t in ts && d in DocsOf(idx.postingList(t)) && idx.collectionFreq(t) != 0 :: d
  }

  function TermFreqsFor(idx: Index, ts: seq<string>, d: int): map<string, int> {
    map t | t in ts && Contributes(idx, t, d) :: LastFreq(idx.postingList(t), d).value
  }

  /** populateQueryResult builds exactly the reference map. */
  lemma AggregateIsExpected(idx: Index, ts: seq<string>)
    ensures Aggregate(idx, ts) == Expected(idx, ts)
  {
    var a := Aggregate(idx, ts);
    var e := Expected(idx, ts);
    forall d ensures d in a <==> d in e {
      AggregateAt(idx, ts, d);
      if d in a {
        var t :| t in ts && Contributes(idx, t, d);
        assert d in CandidateDocs(idx, ts);
      }
    }
    forall d | d in a ensures a[d] == e[d] {
      AggregateAt(idx, ts, d);
      assert a[d].Keys == TermFreqsFor(idx, ts, d).Keys;
    }
  }

  /** Soundness: every document comes from the posting list of a query token
      that occurs in the collection, every inner map is non-empty, and its
      keys are query tokens whose collection frequency is not 0. */
  lemma AggregateSound(idx: Index, ts: seq<string>)
    ensures forall d :: d in Aggregate(idx, ts) ==>
      (exists t :: t in ts && idx.collectionFreq(t) != 0 && d in DocsOf(idx.postingList(t))) &&
      |Aggregate(idx, ts)[d]| > 0 &&
      forall t :: t in Aggregate(idx, ts)[d] ==> t in ts && idx.collectionFreq(t) != 0
  {
    forall d | d in Aggregate(idx, ts)
      ensures (exists t :: t in ts && idx.collectionFreq(t) != 0 && d in DocsOf(idx.postingList(t))) &&
              |Aggregate(idx, ts)[d]| > 0 &&
              forall t :: t in Aggregate(idx, ts)[d] ==> t in ts && idx.collectionFreq(t) != 0
    {
      AggregateAt(idx, ts, d);
      var t :| t in ts && Contributes(idx, t, d);
      assert t in Aggregate(idx, ts)[d];
    }
  }

  /** Completeness: every entry (d, f) of a counted token's posting list
      lands in the map under d and that token, with the frequency of the
      last entry for d. */
  lemma AggregateComplete(idx: Index, ts: seq<string>)
    ensures forall t, p :: t in ts && idx.collectionFreq(t) != 0 && p in idx.postingList(t) ==>
      p.doc in Aggregate(idx, ts) && t in Aggregate(idx, ts)[p.doc] &&
      Aggregate(idx, ts)[p.doc][t] == LastFreq(idx.postingList(t), p.doc).value
  {
    forall t, p | t in ts && idx.collectionFreq(t) != 0 && p in idx.postingList(t)
      ensures p.doc in Aggregate(idx, ts) && t in Aggregate(idx, ts)[p.doc] &&
              Aggregate(idx, ts)[p.doc][t] == LastFreq(idx.postingList(t), p.doc).value
    {
      AggregateAt(idx, ts, p.doc);
      assert p.doc in DocsOf(idx.postingList(t));
      assert Contributes(idx, t, p.doc);
    }
  }

  /** The map depends only on which tokens with a non-zero collection
      frequency occur in the query. */
  lemma AggregateDependsOnlyOnCountedTokens(idx: Index, ts1: seq<string>, ts2: seq<string>)
    requires forall t :: (t in ts1 && idx.collectionFreq(t) != 0) <==> (t in ts2 && idx.collectionFreq(t) != 0)
    ensures Aggregate(idx, ts1) == Aggregate(idx, ts2)
  {
    var a1 := Aggregate(idx, ts1);
    var a2 := Aggregate(idx, ts2);
    forall d ensures d in a1 <==> d in a2 {
      AggregateAt(idx, ts1, d);
      AggregateAt(idx, ts2, d);
      if d in a1 {
        var t :| t in ts1 && Contributes(idx, t, d);
        assert t in ts2;
      }
      if d in a2 {
        var t :| t in ts2 && Contributes(idx, t, d);
        assert t in ts1;
      }
    }
    forall d | d in a1 ensures a1[d] == a2[d] {
      AggregateAt(idx, ts1, d);
      AggregateAt(idx, ts2, d);
      assert a1[d].Keys == a2[d].Keys;
    }
  }

  /** Repeating a token, or reordering the tokens, does not change the map. */
  lemma AggregateDependsOnlyOnTokenSet(idx: Index, ts1: seq<string>, ts2: seq<string>)
    requires forall t :: t in ts1 <==> t in ts2
    ensures Aggregate(idx, ts1) == Aggregate(idx, ts2)
  {
    AggregateDependsOnlyOnCountedTokens(idx, ts1, ts2);
  }

  /** The tokens whose collection frequency is not 0, in order. */
  function CountedTokens(idx: Index, ts: seq<string>): (r: seq<string>)
    ensures forall t :: t in r <==> t in ts && idx.collectionFreq(t) != 0
  {
    if ts == [] then []
    else (if idx.collectionFreq(ts[0]) != 0 then [ts[0]] else []) + CountedTokens(idx, ts[1..])
  }

  /** Tokens whose collection frequency is 0 add neither documents nor term
      entries: dropping them all gives the same map. */
  lemma ZeroFrequencyTokensContributeNothing(idx: Index, ts: seq<string>)
    ensures Aggregate(idx, ts) == Aggregate(idx, CountedTokens(idx, ts))
  {
    AggregateDependsOnlyOnCountedTokens(idx, ts, CountedTokens(idx, ts));
  }

  // ---------------------------------------------------------------------------
  // The collection-frequency cache

  predicate NoDuplicates(s: seq<string>) {
    forall i, j :: 0 <= i < j < |s| ==> s[i] != s[j]
  }

  /** The tokens populateQueryResult looks up in the index, in order: each
      token not cached before the call, at its first occurrence. */
  function NewTerms(ts: seq<string>, cached: set<string>): seq<string> {
    if ts == [] then []
    else
      var init := ts[..|ts| - 1];
      var t := ts[|ts| - 1];
      if t in cached || t in init then NewTerms(init, cached) else NewTerms(init, cached) + [t]
  }

  /** Exactly the uncached tokens are looked up, each once. */
  lemma {:induction false} NewTermsSpec(ts: seq<string>, cached: set<string>)
    ensures forall t :: t in NewTerms(ts, cached) <==> t in ts && t !in cached
    ensures NoDuplicates(NewTerms(ts, cached))
  {
    if ts != [] {
      var init := ts[..|ts| - 1];
      var t := ts[|ts| - 1];
      NewTermsSpec(init, cached);
      assert ts == init + [t];
      var prev := NewTerms(init, cached);
      if !(t in cached || t in init) {
        var r := prev + [t];
        forall i, j | 0 <= i < j < |r| ensures r[i] != r[j] {
          if j == |prev| {
            assert prev[i] in prev;
          }
        }
      }
    }
  }

  lemma NewTermsStep(ts: seq<string>, i: nat, cached: set<string>)
    requires i < |ts|
    ensures NewTerms(ts[..i + 1], cached) ==
      if ts[i] in cached || ts[i] in ts[..i] then NewTerms(ts[..i], cached)
      else NewTerms(ts[..i], cached) + [ts[i]]
  {
    assert ts[..i + 1][..i] == ts[..i];
  }

  lemma AddPostingsStep(m: DocTermFreqs, term: string, ps: seq<Posting>, j: nat)
    requires j < |ps|
    ensures var prev := AddPostings(m, term, ps[..j]);
      AddPostings(m, term, ps[..j + 1]) == prev[ps[j].doc := InnerOf(prev, ps[j].doc)[term := ps[j].freq]]
  {
    assert ps[..j + 1][..j] == ps[..j];
  }

  /** The cache after populateQueryResult's lookups for ts: each token not
      yet cached gets the index's collection frequency. */
  function CacheFill(idx: Index, cache: map<string, int>, ts: seq<string>): map<string, int> {
    if ts == [] then cache
    else
      var c := CacheFill(idx, cache, ts[..|ts| - 1]);
      var t := ts[|ts| - 1];
      if t in c then c else c[t := idx.collectionFreq(t)]
  }

  lemma CacheFillStep(idx: Index, cache: map<string, int>, ts: seq<string>, i: nat)
    requires i < |ts|
    ensures var c := CacheFill(idx, cache, ts[..i]);
      CacheFill(idx, cache, ts[..i + 1]) == if ts[i] in c then c else c[ts[i] := idx.collectionFreq(ts[i])]
  {
    assert ts[..i + 1][..i] == ts[..i];
  }

  /** The cache grows by exactly the tokens, entries present before keep
      their value, and new entries hold the index's collection frequency. */
  lemma {:induction false} CacheFillSpec(idx: Index, cache: map<string, int>, ts: seq<string>)
    ensures forall t :: t in CacheFill(idx, cache, ts) <==> t in cache || t in ts
    ensures forall t :: t in cache ==> CacheFill(idx, cache, ts)[t] == cache[t]
    ensures forall t :: t in CacheFill(idx, cache, ts) && t !in cache ==>
      CacheFill(idx, cache, ts)[t] == idx.collectionFreq(t)
  {
    if ts != [] {
      var init := ts[..|ts| - 1];
      CacheFillSpec(idx, cache, init);
      assert ts == init + [ts[|ts| - 1]];
    }
  }

  /** A token is cached before its lookup exactly when it was cached at the
      start or occurred earlier. */
  lemma CacheFillHas(idx: Index, cache: map<string, int>, ts: seq<string>, i: nat)
    requires i < |ts|
    ensures ts[i] in CacheFill(idx, cache, ts[..i]) <==> ts[i] in cache || ts[i] in ts[..i]
  {
    CacheFillSpec(idx, cache, ts[..i]);
  }

  /** One token of populateQueryResult's loop, as seen by the cache and the
      lookup record: an uncached token is fetched and recorded. */
  lemma CacheStep(idx: Index, cache0: map<string, int>, lookups0: seq<string>, ts: seq<string>, i: nat,
                  cache: map<string, int>, lookups: seq<string>)
    requires i < |ts|
    requires cache == CacheFill(idx, cache0, ts[..i])
    requires lookups == lookups0 + NewTerms(ts[..i], cache0.Keys)
    ensures ts[i] in cache ==>
      cache == CacheFill(idx, cache0, ts[..i + 1]) &&
      lookups == lookups0 + NewTerms(ts[..i + 1], cache0.Keys)
    ensures ts[i] !in cache ==>
      cache[ts[i] := idx.collectionFreq(ts[i])] == CacheFill(idx, cache0, ts[..i + 1]) &&
      lookups + [ts[i]] == lookups0 + NewTerms(ts[..i + 1], cache0.Keys)
  {
    NewTermsStep(ts, i, cache0.Keys);
    CacheFillStep(idx, cache0, ts, i);
    CacheFillHas(idx, cache0, ts, i);
    var seen := NewTerms(ts[..i], cache0.Keys);
    assert lookups0 + (seen + [ts[i]]) == lookups0 + seen + [ts[i]];
  }

  /** The cache agrees with the index, and the lookup record holds each
      cached term exactly once. */
  ghost predicate CacheValid(idx: Index, cache: map<string, int>, lookups: seq<string>) {
    (forall t :: t in cache ==> cache[t] == idx.collectionFreq(t)) &&
    NoDuplicates(lookups) &&
    (forall t :: t in lookups <==> t in cache)
  }

  /** Fetching an uncached term and recording the fetch keeps the cache valid. */
  lemma CacheInsert(idx: Index, cache: map<string, int>, lookups: seq<string>, t: string)
    requires CacheValid(idx, cache, lookups) && t !in cache
    ensures CacheValid(idx, cache[t := idx.collectionFreq(t)], lookups + [t])
  {
    var l := lookups + [t];
    forall i, j | 0 <= i < j < |l| ensures l[i] != l[j] {
      if j == |lookups| {
        assert lookups[i] in lookups;
      }
    }
  }

  /** The scoring step: a stub that scores no document, whatever the map. */
  function QueryLikelihood(queryResult: DocTermFreqs): (docs: seq<Document>)
    ensures |docs| == 0
  {
    []
  }

  class QueryRetrievalModel {
    const index: Index
    /** Cached collection frequencies, filled at most once per term. */
    var collectionFreq: map<string, int>
    /** Every term whose collection frequency was fetched from the index, in order. */
    ghost var lookups: seq<string>

    /** The cache agrees with the index, and every cached term was fetched
        exactly once. */
    ghost predicate Valid()
      reads this
    {
      CacheValid(index, collectionFreq, lookups)
    }

    constructor (ixreader: Index)
      ensures Valid()
      ensures index == ixreader && collectionFreq == map[] && lookups == []
    {
      index := ixreader;
      collectionFreq := map[];
      lookups := [];
    }

    /** Splits the content on single spaces (trailing empty strings dropped)
        and answers the tokens; no tokens, no documents. */
    method RetrieveQuery(aQuery: Query, topN: int) returns (docs: seq<Document>)
      requires Valid()
      modifies this`collectionFreq, this`lookups
      ensures Valid()
      ensures docs == []
      ensures collectionFreq == CacheFill(index, old(collectionFreq), SplitOnSpace(aQuery.content))
      ensures lookups == old(lookups) + NewTerms(SplitOnSpace(aQuery.content), old(collectionFreq).Keys)
    {
      var queryTokens := SplitOnSpace(aQuery.content);
      if |queryTokens| == 0 {
        return [];
      }
      docs := InternalQueryOne(queryTokens, topN);
    }

    /** Aggregates, scores and sorts by descending score; topN is not applied. */
    method InternalQueryOne(tokens: seq<string>, topN: int) returns (docs: seq<Document>)
      requires Valid()
      modifies this`collectionFreq, this`lookups
      ensures Valid()
      ensures docs == SortByScore(QueryLikelihood(Aggregate(index, tokens)))
      ensures docs == []
      ensures collectionFreq == CacheFill(index, old(collectionFreq), tokens)
      ensures lookups == old(lookups) + NewTerms(tokens, old(collectionFreq).Keys)
    {
      var queryResult := PopulateQueryResult(tokens);
      var res := QueryLikelihood(queryResult);
      docs := SortByScore(res);
    }

    /** Builds docid -> (term -> frequency) from the posting lists of the
        tokens whose collection frequency is not 0, fetching a token's
        collection frequency from the index only when it is not cached. */
    method PopulateQueryResult(tokens: seq<string>) returns (res: DocTermFreqs)
      requires Valid()
      modifies this`collectionFreq, this`lookups
      ensures Valid()
      ensures res == Aggregate(index, tokens)
      ensures collectionFreq == CacheFill(index, old(collectionFreq), tokens)
      ensures lookups == old(lookups) + NewTerms(tokens, old(collectionFreq).Keys)
    {
      res := map[];
      ghost var cached0 := collectionFreq;
      ghost var lookups0 := lookups;
      for i := 0 to |tokens|
        invariant Valid()
        invariant res == Aggregate(index, tokens[..i])
        invariant collectionFreq == CacheFill(index, cached0, tokens[..i])
        invariant lookups == lookups0 + NewTerms(tokens[..i], cached0.Keys)
      {
        var token := tokens[i];
        AggregateStep(index, tokens, i);
        CacheStep(index, cached0, lookups0, tokens, i, collectionFreq, lookups);
        var cFreq := CollectionFreqOf(token);
        if cFreq == 0 {
          continue;
        }
        var postingList := index.postingList(token);
        res := AddPostingList(res, token, postingList);
      }
      assert tokens[..|tokens|] == tokens;
    }

    /** The collection frequency of token, fetched from the index only when
        it is not cached yet, and then cached. */
    method CollectionFreqOf(token: string) returns (cf: int)
      requires Valid()
      modifies this`collectionFreq, this`lookups
      ensures Valid()
      ensures cf == index.collectionFreq(token)
      ensures collectionFreq ==
        if token in old(collectionFreq) then old(collectionFreq) else old(collectionFreq)[token := cf]
      ensures lookups == if token in old(collectionFreq) then old(lookups) else old(lookups) + [token]
    {
      if token !in collectionFreq {
        CacheInsert(index, collectionFreq, lookups, token);
        collectionFreq := collectionFreq[token := index.collectionFreq(token)];
        lookups := lookups + [token];
      }
      cf := collectionFreq[token];
    }
  }

  /** populateQueryResult's inner loop over one token's postings. */
  method AddPostingList(m: DocTermFreqs, token: string, postingList: seq<Posting>) returns (res: DocTermFreqs)
    ensures res == AddPostings(m, token, postingList)
  {
    res := m;
    for j := 0 to |postingList|
      invariant res == AddPostings(m, token, postingList[..j])
    {
      AddPostingsStep(m, token, postingList, j);
      var docid := postingList[j].doc;
      var docFreq := postingList[j].freq;
      var oneTermFreq := InnerOf(res, docid);
      if |oneTermFreq| == 0 && docid !in res {
        // putIfAbsent of the fresh inner map
        res := res[docid := oneTermFreq];
      }
      // the put goes through the map res holds for docid
      oneTermFreq := oneTermFreq[token := docFreq];
      res := res[docid := oneTermFreq];
    }
    assert postingList[..|postingList|] == postingList;
  }

  // ---------------------------------------------------------------------------
  // From topic to query tokens

  /** Stemming space-free tokens with a stemmer that adds no space yields
      space-free words. */
  lemma {:induction false} SurvivorsHaveNoSpace(ts: seq<string>, stopWords: set<string>, stem: string -> string)
    requires forall w :: ' ' !in w ==> ' ' !in stem(w)
    requires forall t :: t in ts ==> ' ' !in t
    ensures forall w :: w in Survivors(ts, stopWords, stem) ==> ' ' !in w
  {
    if ts != [] {
      assert ts[0] in ts;
      LowerKeepsSpaces(ts[0]);
      assert forall t :: t in ts[1..] ==> t in ts;
      SurvivorsHaveNoSpace(ts[1..], stopWords, stem);
    }
  }

  /** Lower-casing neither adds nor removes spaces. */
  lemma LowerKeepsSpaces(t: string)
    ensures ' ' in Lower(t) <==> ' ' in t
  {
    LowerPointwise(t);
    if ' ' in Lower(t) {
      var k :| 0 <= k < |t| && Lower(t)[k] == ' ';
      assert t[k] == ' ';
    }
    if ' ' in t {
      var k :| 0 <= k < |t| && t[k] == ' ';
      assert Lower(t)[k] == ' ';
    }
  }

  /** On content built by normalizeString (with a stemmer that adds no space
      to a space-free word), the split gives back exactly the surviving stems, and a single
      empty token when none survives: the "no tokens" guard never fires, and
      an all-stop-word topic looks up the empty term. */
  lemma QueryTokensAreSurvivingStems(s: string, stopWords: set<string>, stem: string -> string)
    requires forall w :: ' ' !in w ==> ' ' !in stem(w)
    ensures var ws := Survivors(Tokens(s), stopWords, stem);
      SplitOnSpace(Normalize(s, stopWords, stem)) == if ws == [] then [[]] else ws
    ensures |SplitOnSpace(Normalize(s, stopWords, stem))| > 0
  {
    var ws := Survivors(Tokens(s), stopWords, stem);
    SurvivorsShape(Tokens(s), stopWords, stem);
    TokensAreWords(s);
    assert IsDelimiter(' ');
    SurvivorsHaveNoSpace(Tokens(s), stopWords, stem);
    SplitTerminatedRoundTrip(ws);
  }
}
