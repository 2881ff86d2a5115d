/** The ranked answer list: documents with a relevance score, ordered from the
    most to the least relevant. Only the accessors the retrieval model uses
    are modelled: the document number and the score. */
module Ranking {

  /** A retrieved document; the score is a real number. */
  datatype Document = Document(docNo: string, score: real)

  /** The comparator internalQueryOne hands to List.sort: the document with
      the higher score comes first, and it never answers "equal". */
  function Compare(d1: Document, d2: Document): (c: int)
    ensures c == -1 || c == 1
    ensures c == -1 <==> d1.score > d2.score
  {
    if d1.score > d2.score then -1 else 1
  }

  /** Non-increasing by score. */
  predicate SortedByScore(ds: seq<Document>) {
    forall i, j :: 0 <= i < j < |ds| ==> ds[i].score >= ds[j].score
  }

  /** Sorted by score is exactly "the comparator never puts a later document
      strictly before an earlier one". */
  lemma SortedMeansComparatorAgrees(ds: seq<Document>)
    ensures SortedByScore(ds) <==> forall i, j :: 0 <= i < j < |ds| ==> Compare(ds[j], ds[i]) == 1
  {
  }

  /** The comparator is not antisymmetric: for two documents of equal score
      both orders compare as "greater". */
  lemma ComparatorNeverEqual(d1: Document, d2: Document)
    requires d1.score == d2.score
    ensures Compare(d1, d2) == 1 && Compare(d2, d1) == 1
  {
  }

  /** x scores at least as high as every document of ds. */
  predicate Leads(x: Document, ds: seq<Document>) {
    forall j :: 0 <= j < |ds| ==> x.score >= ds[j].score
  }

  /** A list is sorted exactly when its head leads its tail and the tail is sorted. */
  lemma SortedCons(x: Document, ds: seq<Document>)
    ensures SortedByScore([x] + ds) <==> Leads(x, ds) && SortedByScore(ds)
  {
    var s := [x] + ds;
    if Leads(x, ds) && SortedByScore(ds) {
      forall i, j | 0 <= i < j < |s| ensures s[i].score >= s[j].score {
        assert s[j] == ds[j - 1];
        if i > 0 {
          assert s[i] == ds[i - 1];
        }
      }
    }
    if SortedByScore(s) {
      forall i, j | 0 <= i < j < |ds| ensures ds[i].score >= ds[j].score {
        assert ds[i] == s[i + 1] && ds[j] == s[j + 1];
      }
      forall j | 0 <= j < |ds| ensures x.score >= ds[j].score {
        assert ds[j] == s[j + 1] && x == s[0];
      }
    }
  }

  /** Inserts d before the first document with a strictly lower score. */
  function InsertByScore(d: Document, ds: seq<Document>): (r: seq<Document>)
    ensures multiset(r) == multiset(ds) + multiset{d}
  {
    if ds == [] || d.score >= ds[0].score then
      [d] + ds
    else
      assert ds == [ds[0]] + ds[1..];
      [ds[0]] + InsertByScore(d, ds[1..])
  }

  /** A document leading the list and scoring at least d still leads after d is inserted. */
  lemma {:induction false} InsertKeepsLead(x: Document, d: Document, ds: seq<Document>)
    requires Leads(x, ds) && x.score >= d.score
    ensures Leads(x, InsertByScore(d, ds))
  {
    if ds == [] || d.score >= ds[0].score {
      assert Leads(x, [d] + ds) by {
        forall j | 0 <= j < |ds| + 1 ensures x.score >= ([d] + ds)[j].score {
          if j > 0 {
            assert ([d] + ds)[j] == ds[j - 1];
          }
        }
      }
    } else {
      assert Leads(x, ds[1..]) by {
        forall j | 0 <= j < |ds| - 1 ensures x.score >= ds[1..][j].score {
          assert ds[1..][j] == ds[j + 1];
        }
      }
      InsertKeepsLead(x, d, ds[1..]);
      var r := InsertByScore(d, ds);
      var tail := InsertByScore(d, ds[1..]);
      assert r == [ds[0]] + tail;
      forall j | 0 <= j < |r| ensures x.score >= r[j].score {
        if j > 0 {
          assert r[j] == tail[j - 1];
        }
      }
    }
  }

  /** Inserting into a sorted list keeps it sorted. */
  lemma {:induction false} InsertKeepsSorted(d: Document, ds: seq<Document>)
    requires SortedByScore(ds)
    ensures SortedByScore(InsertByScore(d, ds))
  {
    if ds == [] || d.score >= ds[0].score {
      SortedCons(d, ds);
      if ds != [] {
        SortedCons(ds[0], ds[1..]);
        assert ds == [ds[0]] + ds[1..];
      }
    } else {
      assert ds == [ds[0]] + ds[1..];
      SortedCons(ds[0], ds[1..]);
      InsertKeepsSorted(d, ds[1..]);
      InsertKeepsLead(ds[0], d, ds[1..]);
      SortedCons(ds[0], InsertByScore(d, ds[1..]));
    }
  }

  /** The sorted list: a permutation of ds, non-increasing by score; the
      order among equal scores is not specified by the source. */
  function SortByScore(ds: seq<Document>): (r: seq<Document>)
    ensures SortedByScore(r)
    ensures multiset(r) == multiset(ds)
  {
    if ds == [] then []
    else
      assert ds == [ds[0]] + ds[1..];
      var rest := SortByScore(ds[1..]);
      InsertKeepsSorted(ds[0], rest);
      InsertByScore(ds[0], rest)
  }

  /** The scores of a list, in order. */
  function Scores(ds: seq<Document>): seq<real> {
    seq(|ds|, i requires 0 <= i < |ds| => ds[i].score)
  }

  /** The highest score of a non-empty list heads any sorted permutation of it. */
  lemma {:induction false} SortedHeadIsMax(a: seq<Document>)
    requires a != [] && SortedByScore(a)
    ensures forall d :: d in multiset(a) ==> d.score <= a[0].score
  {
    forall d | d in multiset(a) ensures d.score <= a[0].score {
      var k :| 0 <= k < |a| && a[k] == d;
    }
  }

  /** Taking one document out of a sorted list leaves it sorted. */
  lemma RemoveKeepsSorted(a: seq<Document>, k: nat)
    requires k < |a| && SortedByScore(a)
    ensures SortedByScore(a[..k] + a[k + 1..])
  {
    var a' := a[..k] + a[k + 1..];
    forall i, j | 0 <= i < j < |a'| ensures a'[i].score >= a'[j].score {
      var i0 := if i < k then i else i + 1;
      var j0 := if j < k then j else j + 1;
      assert a'[i] == a[i0] && a'[j] == a[j0];
    }
  }

  /** When the first k + 1 scores are equal, removing the document at k
      leaves the same scores after the head. */
  lemma ScoresAfterRemoval(a: seq<Document>, k: nat)
    requires k < |a| && forall i :: 0 <= i <= k ==> a[i].score == a[0].score
    ensures Scores(a) == [a[0].score] + Scores(a[..k] + a[k + 1..])
  {
    var a' := a[..k] + a[k + 1..];
    var lhs := Scores(a);
    var rhs := [a[0].score] + Scores(a');
    forall i | 0 <= i < |a| ensures lhs[i] == rhs[i] {
      if i > 0 {
        assert rhs[i] == Scores(a')[i - 1] == a'[i - 1].score;
        if i <= k {
          assert a'[i - 1] == a[i - 1];
        } else {
          assert a'[i - 1] == a[i];
        }
      }
    }
  }

  /** Removing the same document from two permutations of each other leaves
      permutations of each other. */
  lemma RemoveMatching(a: seq<Document>, b: seq<Document>, k: nat)
    requires multiset(a) == multiset(b) && k < |a| && b != [] && a[k] == b[0]
    ensures multiset(a[..k] + a[k + 1..]) == multiset(b[1..])
  {
    var rest := a[..k] + a[k + 1..];
    assert a == a[..k] + [a[k]] + a[k + 1..];
    assert multiset(rest) == multiset(a) - multiset{a[k]};
    assert b == [b[0]] + b[1..];
    assert multiset(b[1..]) == multiset(b) - multiset{b[0]};
  }

  /** The tail of a sorted list is sorted. */
  lemma SortedTail(b: seq<Document>)
    requires b != [] && SortedByScore(b)
    ensures SortedByScore(b[1..])
  {
    forall i, j | 0 <= i < j < |b| - 1 ensures b[1..][i].score >= b[1..][j].score {
      assert b[1..][i] == b[i + 1] && b[1..][j] == b[j + 1];
    }
  }

  /** In two sorted permutations of each other, the head of b sits in a at
      some k among a run of documents that all share the head score. */
  lemma MatchHead(a: seq<Document>, b: seq<Document>) returns (k: nat)
    requires SortedByScore(a) && SortedByScore(b) && multiset(a) == multiset(b) && a != []
    ensures b != [] && k < |a| && a[k] == b[0]
    ensures forall i :: 0 <= i <= k ==> a[i].score == a[0].score
    ensures SortedByScore(a[..k] + a[k + 1..]) && SortedByScore(b[1..])
    ensures multiset(a[..k] + a[k + 1..]) == multiset(b[1..])
  {
    assert |b| == |multiset(b)| == |multiset(a)| == |a|;
    assert b[0] in multiset(a);
    k :| 0 <= k < |a| && a[k] == b[0];
    assert a[0].score <= b[0].score by {
      assert a[0] in multiset(b);
      SortedHeadIsMax(b);
    }
    RemoveKeepsSorted(a, k);
    SortedTail(b);
    RemoveMatching(a, b, k);
  }

  /** Whatever the order among ties, the sequence of scores of a sorted
      permutation is determined by the input. */
  lemma {:induction false} SortedPermutationsAgreeOnScores(a: seq<Document>, b: seq<Document>)
    requires SortedByScore(a) && SortedByScore(b) && multiset(a) == multiset(b)
    ensures Scores(a) == Scores(b)
    decreases |a|
  {
    if a == [] {
      assert |b| == |multiset(b)| == 0;
    } else {
      var k := MatchHead(a, b);
      ScoresAfterRemoval(a, k);
      SortedPermutationsAgreeOnScores(a[..k] + a[k + 1..], b[1..]);
      assert Scores(b) == [b[0].score] + Scores(b[1..]);
    }
  }
}
