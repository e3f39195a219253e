/**
 * The aggregation of document_analyser.py (`count_occurrence`): the triple stream
 * is folded into a dictionary from word to `WordCount`, whose keys keep the
 * order in which the words first occurred, and the dictionary's items are then
 * ranked by descending count.
 */
module Aggregator {
  import opened Wrappers
  import opened Errors
  import opened Tokenizer
  import opened WordCounts
  import opened Ranker

  /** The emitted words, in stream order. */
  function WordsOf(content: seq<Triple>): (ws: seq<string>)
    ensures |ws| == |content|
    ensures forall i :: 0 <= i < |content| ==> ws[i] == content[i].word
  {
    seq(|content|, i requires 0 <= i < |content| => content[i].word)
  }

  /**
   * What the dictionary holds for w once the whole stream is consumed, stated
   * independently of the loop: the count is the number of triples whose word is
   * w, the sets are the sentences and the documents of those triples.
   */
  function RecordOf(content: seq<Triple>, w: string): WordRecord
  {
    WordRecord(
      multiset(WordsOf(content))[w],
      set t | t in content && t.word == w :: t.sentence,
      set t | t in content && t.word == w :: t.document)
  }

  /** One more triple changes the record of its own word by one increment, and no other. */
  lemma RecordOfStep(content: seq<Triple>, t: Triple, w: string)
    ensures RecordOf(content + [t], w)
         == if t.word == w then Incremented(RecordOf(content, w), t.sentence, t.document)
            else RecordOf(content, w)
  {
    assert WordsOf(content + [t]) == WordsOf(content) + [t.word];
    assert forall x :: x in content + [t] <==> x in content || x == t;
  }

  /**
   * The dictionary the loop of `count_occurrence` builds: one increment of the
   * word's record per triple, a missing word starting from a fresh record.
   */
  function Tally(content: seq<Triple>): map<string, WordRecord>
  {
    if content == [] then map[]
    else
      var n := |content| - 1;
      Bump(Tally(content[..n]), content[n])
  }

  /** The dictionary after one triple: its word's record, fresh if missing, is incremented. */
  function Bump(m: map<string, WordRecord>, t: Triple): map<string, WordRecord>
  {
    m[t.word := Incremented(if t.word in m then m[t.word] else EmptyRecord, t.sentence, t.document)]
  }

  lemma TallyStep(content: seq<Triple>, i: nat)
    requires i < |content|
    ensures Tally(content[..i + 1]) == Bump(Tally(content[..i]), content[i])
  {
    assert content[..i + 1][..i] == content[..i];
  }

  /**
   * The loop's dictionary agrees with the reference: its keys are the emitted
   * words and each holds the record RecordOf gives it.
   */
  lemma {:induction false} TallyIsRecordOf(content: seq<Triple>)
    ensures forall w :: w in Tally(content) <==> w in WordsOf(content)
    ensures forall w :: w in Tally(content) ==> Tally(content)[w] == RecordOf(content, w)
    decreases |content|
  {
    if content != [] {
      var n := |content| - 1;
      var p := content[..n];
      var t := content[n];
      assert content == p + [t];
      TallyIsRecordOf(p);
      assert WordsOf(content) == WordsOf(p) + [t.word];
      forall w ensures w in Tally(content) ==> Tally(content)[w] == RecordOf(content, w) {
        RecordOfStep(p, t, w);
        if w == t.word && w !in Tally(p) {
          RecordOfAbsent(p, w);
        }
      }
    }
  }

  /** A word the stream has not carried has the record of a fresh `WordCount`. */
  lemma RecordOfAbsent(content: seq<Triple>, w: string)
    requires w !in WordsOf(content)
    ensures RecordOf(content, w) == EmptyRecord
  {
    forall t | t in content ensures t.word != w {
      var i :| 0 <= i < |content| && content[i] == t;
      assert WordsOf(content)[i] == t.word;
    }
  }

  /**
   * Every record is bounded (count at least the number of its sentences and of
   * its documents), and its count is positive exactly for the emitted words.
   */
  lemma {:induction false} RecordOfBounded(content: seq<Triple>, w: string)
    ensures Bounded(RecordOf(content, w))
    ensures RecordOf(content, w).count >= 1 <==> w in WordsOf(content)
    decreases |content|
  {
    if content == [] {
      assert RecordOf(content, w) == EmptyRecord;
    } else {
      var n := |content| - 1;
      var t := content[n];
      assert content == content[..n] + [t];
      RecordOfBounded(content[..n], w);
      RecordOfStep(content[..n], t, w);
      if t.word == w {
        IncrementedBounded(RecordOf(content[..n], w), t.sentence, t.document);
      }
    }
  }

  /** The position where w first occurs in ws. */
  function FirstIndex(ws: seq<string>, w: string): (k: nat)
    requires w in ws
    ensures k < |ws| && ws[k] == w
    ensures forall i :: 0 <= i < k ==> ws[i] != w
  {
    if ws[0] == w then 0 else 1 + FirstIndex(ws[1..], w)
  }

  /**
   * The keys of a `defaultdict` filled from ws, in insertion order: each word once,
   * where it first occurs.
   */
  function FirstOccurrences(ws: seq<string>): (r: seq<string>)
    ensures Distinct(r)
    ensures forall w :: w in r <==> w in ws
  {
    if ws == [] then []
    else
      var n := |ws| - 1;
      var p := FirstOccurrences(ws[..n]);
      assert ws == ws[..n] + [ws[n]];
      if ws[n] in p then p else p + [ws[n]]
  }

  lemma FirstIndexPrefix(ws: seq<string>, n: nat, w: string)
    requires n <= |ws| && w in ws[..n]
    ensures FirstIndex(ws, w) == FirstIndex(ws[..n], w)
  {
    var k := FirstIndex(ws[..n], w);
    assert ws[k] == w;
    assert forall i :: 0 <= i < k ==> ws[i] == ws[..n][i];
  }

  /** The keys come in the order of the words' first occurrences. */
  lemma {:induction false} FirstOccurrencesOrdered(ws: seq<string>)
    ensures forall i, j :: 0 <= i < j < |FirstOccurrences(ws)| ==>
      FirstIndex(ws, FirstOccurrences(ws)[i]) < FirstIndex(ws, FirstOccurrences(ws)[j])
    decreases |ws|
  {
    if ws != [] {
      var n := |ws| - 1;
      var p := FirstOccurrences(ws[..n]);
      var r := FirstOccurrences(ws);
      FirstOccurrencesOrdered(ws[..n]);
      forall i | 0 <= i < |p| ensures FirstIndex(ws, p[i]) == FirstIndex(ws[..n], p[i]) < n {
        FirstIndexPrefix(ws, n, p[i]);
      }
      if ws[n] !in p {
        assert ws[n] !in ws[..n];
        assert FirstIndex(ws, ws[n]) == n;
        assert r == p + [ws[n]];
      }
      assert |p| <= |r|;
      forall i, j | 0 <= i < j < |r| ensures FirstIndex(ws, r[i]) < FirstIndex(ws, r[j]) {
        assert r[i] == p[i];
        assert FirstIndex(ws, p[i]) == FirstIndex(ws[..n], p[i]) < n;
        if j < |p| {
          assert r[j] == p[j];
          assert FirstIndex(ws, p[j]) == FirstIndex(ws[..n], p[j]);
          assert FirstIndex(ws[..n], p[i]) < FirstIndex(ws[..n], p[j]);
        } else {
          assert ws[n] !in p && r[j] == ws[n];
        }
      }
    }
  }

  /** The dictionary's items in insertion order: each key with the record it holds. */
  function Entries(content: seq<Triple>): (es: seq<Entry>)
  {
    var order := FirstOccurrences(WordsOf(content));
    seq(|order|, i requires 0 <= i < |order| => Entry(order[i], RecordOf(content, order[i])))
  }

  /** The dictionary's keys are exactly the emitted words, each of them once. */
  lemma EntriesKeys(content: seq<Triple>, es: seq<Entry>)
    requires es == Entries(content)
    ensures (forall i, j :: 0 <= i < j < |es| ==> es[i].word != es[j].word)
      && (forall i :: 0 <= i < |es| ==> es[i].word in WordsOf(content))
      && (forall w :: w in WordsOf(content) ==> exists i :: 0 <= i < |es| && es[i].word == w)
  {
    var order := FirstOccurrences(WordsOf(content));
    forall w | w in WordsOf(content) ensures exists i :: 0 <= i < |es| && es[i].word == w {
      var i :| 0 <= i < |order| && order[i] == w;
      assert es[i].word == w;
    }
  }

  /**
   * Each key holds the record RecordOf gives it, with a positive count that is
   * at least the number of its sentences and of its documents.
   */
  lemma EntriesRecords(content: seq<Triple>, es: seq<Entry>)
    requires es == Entries(content)
    ensures forall i :: 0 <= i < |es| ==>
        es[i].record == RecordOf(content, es[i].word) && Bounded(es[i].record) && es[i].record.count >= 1
  {
    var order := FirstOccurrences(WordsOf(content));
    forall i | 0 <= i < |es| ensures Bounded(es[i].record) && es[i].record.count >= 1 {
      RecordOfBounded(content, order[i]);
    }
  }

  /** The keys come in the order in which their words first occurred in the stream. */
  lemma EntriesInsertionOrder(content: seq<Triple>, es: seq<Entry>)
    requires es == Entries(content)
    ensures forall i, j :: 0 <= i < j < |es| ==>
        es[i].word in WordsOf(content) && es[j].word in WordsOf(content) &&
        FirstIndex(WordsOf(content), es[i].word) < FirstIndex(WordsOf(content), es[j].word)
  {
    FirstOccurrencesOrdered(WordsOf(content));
  }

  /**
   * The ranking `count_occurrence` returns lists every emitted word exactly once,
   * with its record, and nothing else.
   */
  lemma RankingListsEachWordOnce(content: seq<Triple>, r: seq<Entry>)
    requires r == RankByCount(Entries(content))
    ensures (forall i, j :: 0 <= i < j < |r| ==> r[i].word != r[j].word)
      && (forall i :: 0 <= i < |r| ==> r[i].word in WordsOf(content) && r[i].record == RecordOf(content, r[i].word))
      && (forall w :: w in WordsOf(content) ==> exists i :: 0 <= i < |r| && r[i].word == w)
  {
    var es := Entries(content);
    EntriesKeys(content, es);
    EntriesRecords(content, es);
    RankByCountKeys(es, r);
    forall i | 0 <= i < |r| ensures r[i].word in WordsOf(content) && r[i].record == RecordOf(content, r[i].word) {
      assert r[i] in es;
    }
    forall w | w in WordsOf(content) ensures exists i :: 0 <= i < |r| && r[i].word == w {
      var k :| 0 <= k < |es| && es[k].word == w;
      assert es[k] in r;
    }
  }

  /**
   * Words with the same count are ranked in the order in which they first
   * occurred in the stream.
   */
  lemma RankingTiesInInsertionOrder(content: seq<Triple>, r: seq<Entry>)
    requires r == RankByCount(Entries(content))
    ensures forall i :: 0 <= i < |r| ==> r[i].word in WordsOf(content)
    ensures forall i, j :: 0 <= i < j < |r| && r[i].record.count == r[j].record.count ==>
      FirstIndex(WordsOf(content), r[i].word) < FirstIndex(WordsOf(content), r[j].word)
  {
    var es := Entries(content);
    RankingListsEachWordOnce(content, r);
    RankByCountTies(es, r);
    EntriesInsertionOrder(content, es);
  }

  /** One more triple adds its word to the keys if it is new, at the end. */
  lemma OrderStep(content: seq<Triple>, i: nat)
    requires i < |content|
    ensures var p := FirstOccurrences(WordsOf(content[..i])); var w := content[i].word;
      FirstOccurrences(WordsOf(content[..i + 1])) == if w in p then p else p + [w]
  {
    var ws := WordsOf(content[..i + 1]);
    assert ws[..i] == WordsOf(content[..i]);
  }

  /** The records the objects of occ hold, key for key. */
  ghost function Snapshot(occ: map<string, WordCount>): map<string, WordRecord>
    reads set w | w in occ :: occ[w]
  {
    map w | w in occ :: occ[w].Record()
  }

  /** Different keys of occ map to different objects. */
  ghost predicate Separate(occ: map<string, WordCount>) {
    forall w, v :: w in occ && v in occ && w != v ==> occ[w] != occ[v]
  }

  /**
   * One pass of the loop of `count_occurrence`: `occurrence_dict[word]` creates a
   * `WordCount` for a missing word, which joins the keys at the end, and that
   * object is incremented; no other object changes.
   */
  method Tick(occurrences: map<string, WordCount>, order: seq<string>, t: Triple)
      returns (occurrences': map<string, WordCount>, order': seq<string>)
    requires Separate(occurrences)
    requires forall w :: w in occurrences <==> w in order
    modifies set w | w in occurrences :: occurrences[w]
    ensures Separate(occurrences')
    ensures forall w :: w in occurrences' <==> w in order'
    ensures order' == if t.word in order then order else order + [t.word]
    ensures forall w :: w in occurrences' ==>
      (w in occurrences && occurrences'[w] == occurrences[w]) || fresh(occurrences'[w])
    ensures Snapshot(occurrences') == Bump(old(Snapshot(occurrences)), t)
  {
    occurrences', order' := occurrences, order;
    if t.word !in occurrences {
      var created := new WordCount();
      occurrences' := occurrences[t.word := created];
      order' := order + [t.word];
    }
    var counter := occurrences'[t.word];
    counter.Increment(t.sentence, t.document);
  }

  /**
   * The loop of `count_occurrence`: each triple increments the `WordCount` of its
   * word. The objects end up holding the records of Tally, and the keys come in
   * the order of first occurrence.
   */
  method FillOccurrences(content: seq<Triple>) returns (occurrences: map<string, WordCount>, order: seq<string>)
    ensures order == FirstOccurrences(WordsOf(content))
    ensures forall w :: w in occurrences <==> w in order
    ensures forall w :: w in occurrences ==> fresh(occurrences[w])
    ensures Separate(occurrences)
    ensures Snapshot(occurrences) == Tally(content)
  {
    occurrences := map[];
    order := [];
    var i := 0;
    while i < |content|
      invariant 0 <= i <= |content|
      invariant order == FirstOccurrences(WordsOf(content[..i]))
      invariant forall w :: w in occurrences <==> w in order
      invariant forall w :: w in occurrences ==> fresh(occurrences[w])
      invariant Separate(occurrences)
      invariant Snapshot(occurrences) == Tally(content[..i])
    {
      TallyStep(content, i);
      OrderStep(content, i);
      occurrences, order := Tick(occurrences, order, content[i]);
      i := i + 1;
    }
    assert content[..i] == content;
  }

  /** `occurrence_dict.items()`: each key of order with the current record of its object. */
  method Items(occurrences: map<string, WordCount>, order: seq<string>) returns (items: seq<Entry>)
    requires forall w :: w in order ==> w in occurrences
    ensures |items| == |order|
    ensures forall k :: 0 <= k < |order| ==> items[k] == Entry(order[k], occurrences[order[k]].Record())
  {
    items := [];
    var j := 0;
    while j < |order|
      invariant 0 <= j <= |order|
      invariant |items| == j
      invariant forall k :: 0 <= k < j ==> items[k] == Entry(order[k], occurrences[order[k]].Record())
    {
      items := items + [Entry(order[j], occurrences[order[j]].Record())];
      j := j + 1;
    }
  }

  /**
   * `count_occurrence` with the emptiness check it evidently intends: an empty
   * stream raises FilesEmptyException; otherwise the dictionary's items are ranked
   * by descending count.
   */
  method CountOccurrence(content: seq<Triple>) returns (r: Result<seq<Entry>, Error>)
    ensures content == [] ==> r == Failure(FilesEmpty)
    ensures content != [] ==> r == Success(RankByCount(Entries(content)))
  {
    if content == [] {
      return Failure(FilesEmpty);
    }
    var occurrences, order := FillOccurrences(content);
    var items := Items(occurrences, order);
    TallyIsRecordOf(content);
    forall k | 0 <= k < |order| ensures items[k] == Entry(order[k], RecordOf(content, order[k])) {
      assert order[k] in occurrences;
      assert occurrences[order[k]].Record() == Snapshot(occurrences)[order[k]];
    }
    assert items == Entries(content);
    return Success(RankByCount(items));
  }

  /**
   * `count_occurrence` as written: `if not content` tests the generator object
   * that `get_content()` returns. A generator defines neither `__bool__` nor
   * `__len__`, so it is always true and `not content` always false: the branch
   * that raises FilesEmptyException is never taken, and an empty stream is
   * ranked like any other.
   */
  function CountOccurrenceAsWritten(content: seq<Triple>): (r: Result<seq<Entry>, Error>)
    ensures r.Success?
  {
    Success(RankByCount(Entries(content)))
  }

  /** As written, an empty stream gives an empty ranking instead of FilesEmptyException. */
  lemma EmptyContentNotSignalledAsWritten()
    ensures CountOccurrenceAsWritten([]) == Success([])
  {
    EntriesKeys([], Entries([]));
  }
}
