/**
 * `WordCount`: the per-word record of document_analyser.py, an object whose
 * `increment` raises the count by one and adds the sentence and the document
 * name to its two sets.
 */
module WordCounts {

  /** The value a `WordCount` object holds at one moment. */
  datatype WordRecord = WordRecord(count: nat, sentences: set<string>, documentNames: set<string>)

  /** The record a fresh `WordCount` starts from. */
  const EmptyRecord := WordRecord(0, {}, {})

  /** The record after one `increment(sentence, documentName)`. */
  function Incremented(r: WordRecord, sentence: string, documentName: string): WordRecord
  {
    WordRecord(r.count + 1, r.sentences + {sentence}, r.documentNames + {documentName})
  }

  /** The count is never below the number of distinct sentences or documents. */
  ghost predicate Bounded(r: WordRecord) {
    r.count >= |r.sentences| && r.count >= |r.documentNames|
  }

  /** An increment keeps the record bounded and leaves it with a positive count. */
  lemma IncrementedBounded(r: WordRecord, sentence: string, documentName: string)
    requires Bounded(r)
    ensures Bounded(Incremented(r, sentence, documentName))
    ensures Incremented(r, sentence, documentName).count >= 1
  {
    var r' := Incremented(r, sentence, documentName);
    assert |r.sentences + {sentence}| <= |r.sentences| + 1;
    assert |r.documentNames + {documentName}| <= |r.documentNames| + 1;
  }

  class WordCount {
    var count: nat
    var sentences: set<string>
    var documentNames: set<string>

    /** The object's current value. */
    function Record(): WordRecord
      reads this
    {
      WordRecord(count, sentences, documentNames)
    }

    /** `WordCount()`: a zero count and two empty sets. */
    constructor ()
      ensures Record() == EmptyRecord
      ensures Bounded(Record())
    {
      count := 0;
      sentences := {};
      documentNames := {};
    }

    /**
     * `increment(sentence, document_name)`: the count goes up by exactly one, the
     * sentence and the document name are added, and nothing is removed.
     */
    method Increment(sentence: string, documentName: string)
      modifies this
      ensures Record() == Incremented(old(Record()), sentence, documentName)
      ensures old(sentences) <= sentences && old(documentNames) <= documentNames
      ensures old(Bounded(Record())) ==> Bounded(Record())
    {
      ghost var before := Record();
      if Bounded(before) {
        IncrementedBounded(before, sentence, documentName);
      }
      count := count + 1;
      sentences := sentences + {sentence};
      documentNames := documentNames + {documentName};
    }
  }
}
