/**
 * The driver of document_analyser.py: the result size read from the command
 * line, the exclusion list read from the optional word file, and `get_result`,
 * which hands out the top rows of the ranking. The whole run is `Analyse`.
 */
module Analyser {
  import opened Wrappers
  import opened Errors
  import opened Text
  import opened Tokenizer
  import opened WordCounts
  import opened Ranker
  import opened Aggregator

  // ---------------------------------------------------------------- the size argument

  /**
   * `if not args.number.isnumeric(): raise LinesNumberException`, then
   * `int(args.number)`: a size made of digits is read as a decimal number,
   * anything else (the empty string, a sign, a space, a point) is refused.
   */
  function ParseSize(number: string): (r: Result<nat, Error>)
    ensures r.Failure? <==> !IsNumeric(number)
    ensures r.Failure? ==> r.error == LinesNumber
  {
    if !IsNumeric(number) then Failure(LinesNumber) else Success(DecimalValue(number))
  }

  /** Every size written out in decimal is accepted and read back as itself. */
  lemma ParseSizeDecimal(n: nat)
    ensures ParseSize(DecimalString(n)) == Success(n)
  {
    DecimalValueOfString(n);
  }

  /** Leading zeros are accepted and do not change the size. */
  lemma ParseSizeLeadingZero(number: string)
    requires IsNumeric(number)
    ensures ParseSize("0" + number) == ParseSize(number)
  {
    DecimalValueLeadingZero(number);
    assert IsNumeric("0" + number);
  }

  // ---------------------------------------------------------------- the exclusion list

  /**
   * `args.common.read().lower().split()` when a word file is given, and the
   * empty list otherwise: lower-case, whitespace-free, non-empty words.
   */
  function ExclusionList(common: Option<string>): (words: seq<string>)
    ensures common.None? ==> words == []
    ensures forall i :: 0 <= i < |words| ==> words[i] != "" && NoSpace(words[i]) && NoUpper(words[i])
  {
    match common
    case None => []
    case Some(text) =>
      var lowered := Lower(text);
      var words := SplitWhitespace(lowered);
      assert forall i :: 0 <= i < |words| ==> NoUpper(words[i]) by {
        forall i | 0 <= i < |words| ensures NoUpper(words[i]) {
          CharsFromInherits(words[i], lowered);
        }
      }
      words
  }

  /** Joining lower-case words with spaces gives a lower-case text. */
  lemma {:induction false} JoinSpacedNoUpper(words: seq<string>)
    requires forall i :: 0 <= i < |words| ==> NoUpper(words[i])
    ensures NoUpper(JoinSpaced(words))
    decreases |words|
  {
    if |words| > 1 {
      JoinSpacedNoUpper(words[1..]);
      var s := JoinSpaced(words);
      var rest := JoinSpaced(words[1..]);
      assert s == words[0] + " " + rest;
      forall i | 0 <= i < |s| ensures !IsUpper(s[i]) {
        if i > |words[0]| {
          assert s[i] == rest[i - |words[0]| - 1];
        }
      }
    }
  }

  /** `lower()` leaves a text without upper-case letters as it is. */
  lemma LowerOfLower(s: string)
    requires NoUpper(s)
    ensures Lower(s) == s
  {
  }

  /**
   * A word file listing lower-case words separated by single spaces yields
   * exactly those words.
   */
  lemma ExclusionListOfWords(words: seq<string>)
    requires forall i :: 0 <= i < |words| ==> words[i] != "" && NoSpace(words[i]) && NoUpper(words[i])
    ensures ExclusionList(Some(JoinSpaced(words))) == words
  {
    JoinSpacedNoUpper(words);
    LowerOfLower(JoinSpaced(words));
    SplitWhitespaceJoinSpaced(words);
  }

  // ---------------------------------------------------------------- get_result

  /** One output tuple: the word, the names of its documents and its sentences. */
  datatype Row = Row(word: string, documentNames: set<string>, sentences: set<string>)

  function RowOf(e: Entry): Row {
    Row(e.word, e.record.documentNames, e.record.sentences)
  }

  /** The first n rows of the ranking, or all of them when there are fewer. */
  function Top(ranked: seq<Entry>, n: nat): (rows: seq<Row>)
    ensures |rows| == if n < |ranked| then n else |ranked|
    ensures forall i :: 0 <= i < |rows| ==> rows[i] == RowOf(ranked[i])
  {
    var k := if n < |ranked| then n else |ranked|;
    seq(k, i requires 0 <= i < k => RowOf(ranked[i]))
  }

  /**
   * `get_result` as it is evidently meant to run: the position advances on
   * every row, and the rows stop after the requested number or at the end of
   * the ranking, whichever comes first.
   */
  method GetResult(ranked: seq<Entry>, n: nat) returns (rows: seq<Row>)
    ensures rows == Top(ranked, n)
  {
    rows := [];
    var i := 0;
    while i < n && i < |ranked|
      invariant 0 <= i <= |ranked|
      invariant i <= n
      invariant rows == Top(ranked, i)
    {
      rows := rows + [RowOf(ranked[i])];
      i := i + 1;
    }
  }

  /** What the generator of `get_result` does within its first `steps` steps. */
  datatype Outcome = Yielded(rows: seq<Row>) | IndexError

  /**
   * `get_result` as written: `i` is never advanced, so while `0 < n` it yields
   * the first row again and again, and on an empty ranking the first access
   * `result[0]` raises IndexError. The generator never ends by itself, so the
   * model follows it for a given number of steps.
   */
  method GetResultAsWritten(ranked: seq<Entry>, n: nat, steps: nat) returns (out: Outcome)
    ensures n == 0 ==> out == Yielded([])
    ensures n > 0 && ranked == [] && steps > 0 ==> out == IndexError
    ensures n > 0 && ranked != [] ==>
      out.Yielded? && |out.rows| == steps && forall k :: 0 <= k < steps ==> out.rows[k] == RowOf(ranked[0])
  {
    var i := 0;
    var rows: seq<Row> := [];
    var step := 0;
    while step < steps && i < n
      invariant 0 <= step <= steps
      invariant i == 0
      invariant step > 0 ==> ranked != []
      invariant |rows| == step
      invariant forall k :: 0 <= k < step ==> rows[k] == RowOf(ranked[0])
      invariant n == 0 ==> step == 0
    {
      if i >= |ranked| {
        return IndexError;
      }
      rows := rows + [RowOf(ranked[i])];
      step := step + 1;
    }
    return Yielded(rows);
  }

  // ---------------------------------------------------------------- the whole run

  /**
   * A run of document_analyser.py over the given documents, as the program is
   * evidently meant to run: the size is checked first, then the documents must
   * exist, then the text must hold at least one word; the answer is the top
   * rows of the ranking. It is built from the corrected `CountOccurrence` and
   * `GetResult`; the program as written never reports an empty text and, for a
   * positive size, never stops (`CountOccurrenceAsWritten`, `GetResultAsWritten`).
   */
  method Analyse(number: string, common: Option<string>, docs: seq<Document>) returns (r: Result<seq<Row>, Error>)
    ensures !IsNumeric(number) ==> r == Failure(LinesNumber)
    ensures IsNumeric(number) && docs == [] ==> r == Failure(FilesNotPresent)
    ensures IsNumeric(number) && docs != [] && Content(docs, ExclusionList(common)) == [] ==>
      r == Failure(FilesEmpty)
    ensures IsNumeric(number) && docs != [] && Content(docs, ExclusionList(common)) != [] ==>
      r == Success(Top(RankByCount(Entries(Content(docs, ExclusionList(common)))), DecimalValue(number)))
  {
    var size := ParseSize(number);
    if size.Failure? {
      return Failure(size.error);
    }
    var excluded := ExclusionList(common);
    var content := GetContent(docs, excluded);
    if content.Failure? {
      return Failure(content.error);
    }
    var ranking := CountOccurrence(content.value);
    if ranking.Failure? {
      return Failure(ranking.error);
    }
    var rows := GetResult(ranking.value, size.value);
    return Success(rows);
  }

  /**
   * The rows answer the question the program asks: each names a different word
   * of the text with its documents and sentences, in order of non-increasing
   * count, no word left out counts more than a word shown, and when fewer rows
   * than requested come out, every word is shown.
   */
  lemma TopRowsAreMostFrequent(content: seq<Triple>, n: nat, rows: seq<Row>)
    requires rows == Top(RankByCount(Entries(content)), n)
    ensures |rows| <= n
    ensures forall i, j :: 0 <= i < j < |rows| ==> rows[i].word != rows[j].word
    ensures forall i :: 0 <= i < |rows| ==>
      rows[i].word in WordsOf(content)
      && rows[i].sentences == RecordOf(content, rows[i].word).sentences
      && rows[i].documentNames == RecordOf(content, rows[i].word).documentNames
    ensures forall i, j :: 0 <= i < j < |rows| ==>
      RecordOf(content, rows[i].word).count >= RecordOf(content, rows[j].word).count
    ensures forall i, w :: 0 <= i < |rows| && w in WordsOf(content) && Missing(rows, w) ==>
      RecordOf(content, w).count <= RecordOf(content, rows[i].word).count
    ensures |rows| < n ==> forall w :: w in WordsOf(content) ==> !Missing(rows, w)
  {
    var r := RankByCount(Entries(content));
    RankingListsEachWordOnce(content, r);
    TopOfRanking(r, n, rows);
    forall i, w | 0 <= i < |rows| && w in WordsOf(content) && Missing(rows, w)
      ensures RecordOf(content, w).count <= RecordOf(content, rows[i].word).count
    {
      var j :| 0 <= j < |r| && r[j].word == w;
    }
    if |rows| < n {
      forall w | w in WordsOf(content) ensures !Missing(rows, w) {
        var j :| 0 <= j < |r| && r[j].word == w;
      }
    }
  }

  /**
   * On a ranking with non-increasing counts, an entry left out of the top rows
   * counts no more than any entry shown, and nothing is left out when fewer
   * rows than requested come out.
   */
  lemma TopOfRanking(r: seq<Entry>, n: nat, rows: seq<Row>)
    requires rows == Top(r, n)
    requires NonIncreasing(r)
    ensures forall i, j :: 0 <= i < |rows| && 0 <= j < |r| && Missing(rows, r[j].word) ==>
      r[j].record.count <= r[i].record.count
    ensures |rows| < n ==> forall j :: 0 <= j < |r| ==> !Missing(rows, r[j].word)
  {
    forall i, j | 0 <= i < |rows| && 0 <= j < |r| && Missing(rows, r[j].word)
      ensures r[j].record.count <= r[i].record.count
    {
      assert j >= |rows|;
    }
    if |rows| < n {
      forall j | 0 <= j < |r| ensures !Missing(rows, r[j].word) {
        assert rows[j].word == r[j].word;
      }
    }
  }

  /** No row names w. */
  ghost predicate Missing(rows: seq<Row>, w: string) {
    forall k :: 0 <= k < |rows| ==> rows[k].word != w
  }
}
