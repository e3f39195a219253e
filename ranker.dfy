/**
 * The ranking of document_analyser.py: `sorted(occurrence_dict.items(),
 * key=lambda kv: -kv[1].count)`, a stable sort by descending count. Entries with
 * equal counts keep the order they had in the dictionary.
 */
module Ranker {
  import opened WordCounts

  /** One dictionary item: a word and its record. */
  datatype Entry = Entry(word: string, record: WordRecord)

  /** Counts never increase along es. */
  ghost predicate NonIncreasing(es: seq<Entry>) {
    forall i, j :: 0 <= i < j < |es| ==> es[i].record.count >= es[j].record.count
  }

  /** The entries of es whose count is c, in the order es has them. */
  function WithCount(es: seq<Entry>, c: nat): seq<Entry>
  {
    if es == [] then []
    else (if es[0].record.count == c then [es[0]] else []) + WithCount(es[1..], c)
  }

  /**
   * Insert e in front of the first entry whose count is not greater than its own.
   * e only moves past entries with strictly larger counts.
   */
  function Insert(e: Entry, es: seq<Entry>): seq<Entry>
  {
    if es == [] || e.record.count >= es[0].record.count then [e] + es
    else [es[0]] + Insert(e, es[1..])
  }

  lemma {:induction false} InsertPermutes(e: Entry, es: seq<Entry>)
    ensures multiset(Insert(e, es)) == multiset(es) + multiset{e}
    decreases |es|
  {
    if !(es == [] || e.record.count >= es[0].record.count) {
      InsertPermutes(e, es[1..]);
      assert es == [es[0]] + es[1..];
    }
  }

  lemma {:induction false} InsertNonIncreasing(e: Entry, es: seq<Entry>)
    requires NonIncreasing(es)
    ensures NonIncreasing(Insert(e, es))
    decreases |es|
  {
    if !(es == [] || e.record.count >= es[0].record.count) {
      var rest := Insert(e, es[1..]);
      var r := [es[0]] + rest;
      InsertNonIncreasing(e, es[1..]);
      InsertPermutes(e, es[1..]);
      forall j | 0 < j < |r| ensures r[0].record.count >= r[j].record.count {
        assert r[j] == rest[j - 1];
        assert r[j] in multiset(rest);
        assert r[j] == e || r[j] in multiset(es[1..]);
      }
    }
  }

  lemma {:induction false} InsertStable(e: Entry, es: seq<Entry>, c: nat)
    ensures WithCount(Insert(e, es), c) == WithCount([e] + es, c)
    decreases |es|
  {
    if !(es == [] || e.record.count >= es[0].record.count) {
      var rest := Insert(e, es[1..]);
      InsertStable(e, es[1..], c);
      assert ([es[0]] + rest)[1..] == rest;
      assert ([e] + es)[1..] == es;
      assert ([e] + es[1..])[1..] == es[1..];
    }
  }

  /**
   * The stable sort by descending count: a permutation of es, with counts
   * non-increasing, in which the entries of every count come in their order in es.
   */
  function RankByCount(es: seq<Entry>): (r: seq<Entry>)
    ensures multiset(r) == multiset(es)
    ensures |r| == |es|
    ensures NonIncreasing(r)
    ensures forall c :: WithCount(r, c) == WithCount(es, c)
  {
    if es == [] then []
    else
      var rest := RankByCount(es[1..]);
      var r := Insert(es[0], rest);
      InsertPermutes(es[0], rest);
      InsertNonIncreasing(es[0], rest);
      assert forall c :: WithCount(r, c) == WithCount(es, c) by {
        forall c ensures WithCount(r, c) == WithCount(es, c) {
          InsertStable(es[0], rest, c);
          assert ([es[0]] + rest)[1..] == rest;
        }
      }
      assert es == [es[0]] + es[1..];
      assert |r| == |multiset(r)|;
      r
  }

  /** Two different positions of a sequence without repetitions hold different values. */
  ghost predicate Distinct<T>(s: seq<T>) {
    forall i, j :: 0 <= i < j < |s| ==> s[i] != s[j]
  }

  lemma {:induction false} DistinctMultiplicity<T>(s: seq<T>, x: T)
    requires Distinct(s)
    ensures multiset(s)[x] <= 1
    decreases |s|
  {
    if s != [] {
      assert s == [s[0]] + s[1..];
      assert Distinct(s[1..]);
      DistinctMultiplicity(s[1..], x);
      if x == s[0] {
        assert x !in s[1..];
      }
    }
  }

  /** A rearrangement of a sequence without repetitions has none either. */
  lemma DistinctPermutation<T>(a: seq<T>, b: seq<T>)
    requires multiset(a) == multiset(b)
    requires Distinct(a)
    ensures Distinct(b)
  {
    forall i, j | 0 <= i < j < |b| ensures b[i] != b[j] {
      if b[i] == b[j] {
        var x := b[i];
        assert b == b[..j] + b[j..];
        assert x in b[..j] && x in b[j..];
        assert multiset(b)[x] == multiset(b[..j])[x] + multiset(b[j..])[x];
        DistinctMultiplicity(a, x);
        assert false;
      }
    }
  }

  /** A rearrangement has the same members. */
  lemma PermutationMembers<T>(a: seq<T>, b: seq<T>)
    requires multiset(a) == multiset(b)
    ensures forall x :: x in a <==> x in b
  {
    forall x ensures x in a <==> x in b {
      assert x in a <==> x in multiset(a);
      assert x in b <==> x in multiset(b);
    }
  }

  /**
   * Ranking a dictionary's items keeps its keys unique and lists exactly its
   * items.
   */
  lemma RankByCountKeys(es: seq<Entry>, r: seq<Entry>)
    requires r == RankByCount(es)
    requires forall i, j :: 0 <= i < j < |es| ==> es[i].word != es[j].word
    ensures forall i, j :: 0 <= i < j < |r| ==> r[i].word != r[j].word
    ensures forall e :: e in r <==> e in es
  {
    PermutationMembers(es, r);
    assert Distinct(es);
    DistinctPermutation(es, r);
    forall i, j | 0 <= i < j < |r| ensures r[i].word != r[j].word {
      assert r[i] in es && r[j] in es;
    }
  }

  /** Every entry WithCount picks is an entry of es with count c. */
  lemma {:induction false} WithCountMember(es: seq<Entry>, c: nat, p: nat)
    requires p < |WithCount(es, c)|
    ensures exists a :: 0 <= a < |es| && es[a] == WithCount(es, c)[p] && es[a].record.count == c
    decreases |es|
  {
    var w := WithCount(es, c);
    if es[0].record.count == c && p == 0 {
      assert es[0] == w[0];
    } else {
      var p' := if es[0].record.count == c then p - 1 else p;
      assert w[p] == WithCount(es[1..], c)[p'];
      WithCountMember(es[1..], c, p');
      var a :| 0 <= a < |es[1..]| && es[1..][a] == WithCount(es[1..], c)[p'] && es[1..][a].record.count == c;
      assert es[a + 1] == es[1..][a];
    }
  }

  /** Two entries of count c in es appear in WithCount(es, c) in the same order. */
  lemma {:induction false} WithCountKeepsOrder(es: seq<Entry>, c: nat, i: nat, j: nat)
    requires i < j < |es|
    requires es[i].record.count == c && es[j].record.count == c
    ensures exists p, q :: 0 <= p < q < |WithCount(es, c)| && WithCount(es, c)[p] == es[i] && WithCount(es, c)[q] == es[j]
    decreases |es|
  {
    var w := WithCount(es, c);
    var rest := WithCount(es[1..], c);
    if i == 0 {
      WithCountPicks(es[1..], c, j - 1);
      var q' :| 0 <= q' < |rest| && rest[q'] == es[1..][j - 1];
      assert w[0] == es[i] && w[q' + 1] == es[j];
    } else {
      WithCountKeepsOrder(es[1..], c, i - 1, j - 1);
      var p', q' :| 0 <= p' < q' < |rest| && rest[p'] == es[1..][i - 1] && rest[q'] == es[1..][j - 1];
      if es[0].record.count == c {
        assert w[p' + 1] == es[i] && w[q' + 1] == es[j];
      } else {
        assert w[p'] == es[i] && w[q'] == es[j];
      }
    }
  }

  /** Every entry of count c in es is picked by WithCount(es, c). */
  lemma {:induction false} WithCountPicks(es: seq<Entry>, c: nat, j: nat)
    requires j < |es| && es[j].record.count == c
    ensures exists q :: 0 <= q < |WithCount(es, c)| && WithCount(es, c)[q] == es[j]
    decreases |es|
  {
    var w := WithCount(es, c);
    if j > 0 {
      WithCountPicks(es[1..], c, j - 1);
      var rest := WithCount(es[1..], c);
      var q' :| 0 <= q' < |rest| && rest[q'] == es[1..][j - 1];
      if es[0].record.count == c {
        assert w[q' + 1] == es[j];
      } else {
        assert w[q'] == es[j];
      }
    } else {
      assert w[0] == es[0];
    }
  }

  /** The positions of two entries WithCount picks follow their order in es. */
  lemma {:induction false} WithCountOrdered(es: seq<Entry>, c: nat, p: nat, q: nat)
    requires p < q < |WithCount(es, c)|
    ensures exists a, b :: 0 <= a < b < |es| && es[a] == WithCount(es, c)[p] && es[b] == WithCount(es, c)[q]
    decreases |es|
  {
    var w := WithCount(es, c);
    var rest := WithCount(es[1..], c);
    if es[0].record.count == c && p == 0 {
      assert w[q] == rest[q - 1];
      WithCountMember(es[1..], c, q - 1);
      var b :| 0 <= b < |es[1..]| && es[1..][b] == rest[q - 1] && es[1..][b].record.count == c;
      assert es[0] == w[p] && es[b + 1] == w[q];
    } else {
      var d := if es[0].record.count == c then 1 else 0;
      assert w[p] == rest[p - d] && w[q] == rest[q - d];
      WithCountOrdered(es[1..], c, p - d, q - d);
      var a, b :| 0 <= a < b < |es[1..]| && es[1..][a] == rest[p - d] && es[1..][b] == rest[q - d];
      assert es[a + 1] == w[p] && es[b + 1] == w[q];
    }
  }

  /**
   * The sort is stable: two entries with the same count come in the ranking in
   * the order they had before it.
   */
  lemma RankByCountTies(es: seq<Entry>, r: seq<Entry>)
    requires r == RankByCount(es)
    ensures forall i, j :: 0 <= i < j < |r| && r[i].record.count == r[j].record.count ==>
      exists a, b :: 0 <= a < b < |es| && es[a] == r[i] && es[b] == r[j]
  {
    forall i, j | 0 <= i < j < |r| && r[i].record.count == r[j].record.count
      ensures exists a, b :: 0 <= a < b < |es| && es[a] == r[i] && es[b] == r[j]
    {
      var c := r[i].record.count;
      WithCountKeepsOrder(r, c, i, j);
      var p, q :| 0 <= p < q < |WithCount(r, c)| && WithCount(r, c)[p] == r[i] && WithCount(r, c)[q] == r[j];
      assert WithCount(r, c) == WithCount(es, c);
      WithCountOrdered(es, c, p, q);
    }
  }
}
