/**
 * The tokenizer of document_analyser.py (`get_content`): each document's text is
 * lower-cased, cut at every '.', and every fragment is split on whitespace; the
 * tokens of a fragment are emitted in order until the first one that is in the
 * exclusion list, which ends that fragment.
 */
module Tokenizer {
  import opened Wrappers
  import opened Errors
  import opened Text

  /** A document: its base file name and its text, as read from disk. */
  datatype Document = Document(name: string, text: string)

  /** One emitted occurrence: the word, the sentence it stands in, the document name. */
  datatype Triple = Triple(word: string, sentence: string, document: string)

  const Comma: set<char> := {','}
  const Newline: set<char> := {'\n'}

  /** The word stored for a raw token: `word.strip(',')`. */
  function CleanWord(token: string): (w: string)
    ensures w == [] || (w[0] != ',' && w[|w| - 1] != ',')
    ensures CharsFrom(w, token)
  {
    Strip(token, Comma)
  }

  /** A token made only of commas, such as ",", is stored as the empty word. */
  lemma CommasOnlyWord(token: string)
    requires forall i :: 0 <= i < |token| ==> token[i] == ','
    ensures CleanWord(token) == ""
  {
  }

  /** The sentence stored for a fragment: `sentence.strip('\n').strip()`. */
  function CleanSentence(fragment: string): (s: string)
    ensures s == [] || (!IsSpace(s[0]) && !IsSpace(s[|s| - 1]))
    ensures CharsFrom(s, fragment)
  {
    var once := Strip(fragment, Newline);
    var s := Strip(once, Whitespace);
    assert CharsFrom(s, fragment) by {
      forall i | 0 <= i < |s| ensures s[i] in fragment {
        assert s[i] in once;
        var k :| 0 <= k < |once| && once[k] == s[i];
      }
    }
    s
  }

  /** The `.`-fragments of a document's lower-cased text: `content.split(".")`. */
  function Fragments(text: string): (r: seq<string>)
    ensures |r| >= 1
    ensures forall i :: 0 <= i < |r| ==> '.' !in r[i] && NoUpper(r[i])
  {
    var lowered := Lower(text);
    var r := SplitOn(lowered, '.');
    assert forall i :: 0 <= i < |r| ==> NoUpper(r[i]) by {
      forall i, k | 0 <= i < |r| && 0 <= k < |r[i]| ensures !IsUpper(r[i][k]) {
        assert r[i][k] in lowered;
      }
    }
    r
  }

  /**
   * The position of the `break` in the loop over a fragment's tokens: the index
   * of the first token in the exclusion list, or the number of tokens if none is.
   */
  function FirstExcluded(tokens: seq<string>, excluded: seq<string>): (k: nat)
    ensures k <= |tokens|
    ensures forall i :: 0 <= i < k ==> tokens[i] !in excluded
    ensures k < |tokens| ==> tokens[k] in excluded
  {
    if tokens == [] || tokens[0] in excluded then 0
    else 1 + FirstExcluded(tokens[1..], excluded)
  }

  /** The triples yielded for the first k tokens of one fragment. */
  function Emit(tokens: seq<string>, k: nat, sentence: string, document: string): (r: seq<Triple>)
    requires k <= |tokens|
    ensures |r| == k
    ensures forall i :: 0 <= i < k ==> r[i] == Triple(CleanWord(tokens[i]), sentence, document)
  {
    if k == 0 then []
    else Emit(tokens, k - 1, sentence, document) + [Triple(CleanWord(tokens[k - 1]), sentence, document)]
  }

  /** The triples one `.`-fragment yields. */
  function SentenceTriples(fragment: string, excluded: seq<string>, document: string): seq<Triple>
  {
    var tokens := SplitWhitespace(fragment);
    Emit(tokens, FirstExcluded(tokens, excluded), CleanSentence(fragment), document)
  }

  /**
   * Break on exclusion: a fragment yields exactly its whitespace tokens, in
   * order, up to and not including the first one that is in the exclusion list.
   * The test is on the raw token, before its commas are stripped; each triple
   * holds the comma-stripped token, the cleaned fragment and the document name.
   */
  lemma BreakOnExclusion(fragment: string, excluded: seq<string>, document: string)
    ensures var tokens := SplitWhitespace(fragment); var r := SentenceTriples(fragment, excluded, document);
      && |r| <= |tokens|
      && (forall i :: 0 <= i < |r| ==> tokens[i] !in excluded)
      && (|r| < |tokens| ==> tokens[|r|] in excluded)
      && (forall i :: 0 <= i < |r| ==>
            r[i].word == CleanWord(tokens[i]) &&
            r[i].sentence == CleanSentence(fragment) &&
            r[i].document == document)
  {
  }

  /** The triples of a sequence of fragments, fragment after fragment. */
  function FragmentsTriples(fragments: seq<string>, excluded: seq<string>, document: string): seq<Triple>
  {
    if fragments == [] then []
    else
      var n := |fragments| - 1;
      FragmentsTriples(fragments[..n], excluded, document) + SentenceTriples(fragments[n], excluded, document)
  }

  /** The triples of one document. */
  function DocumentTriples(doc: Document, excluded: seq<string>): seq<Triple>
  {
    FragmentsTriples(Fragments(doc.text), excluded, doc.name)
  }

  /** The whole stream `get_content` yields: the documents' triples, document after document. */
  function Content(docs: seq<Document>, excluded: seq<string>): seq<Triple>
  {
    if docs == [] then []
    else
      var n := |docs| - 1;
      Content(docs[..n], excluded) + DocumentTriples(docs[n], excluded)
  }

  /**
   * The inner loop of `get_content`: yield each token, comma-stripped, with the
   * cleaned sentence and the document name, and `break` at the first token that
   * is in the exclusion list.
   */
  method EmitTokens(tokens: seq<string>, excluded: seq<string>, sentence: string, document: string)
      returns (triples: seq<Triple>)
    ensures triples == Emit(tokens, FirstExcluded(tokens, excluded), sentence, document)
  {
    triples := [];
    var k := 0;
    while k < |tokens|
      invariant 0 <= k <= |tokens|
      invariant forall i :: 0 <= i < k ==> tokens[i] !in excluded
      invariant triples == Emit(tokens, k, sentence, document)
    {
      if tokens[k] in excluded {
        break;
      }
      triples := triples + [Triple(CleanWord(tokens[k]), sentence, document)];
      k := k + 1;
    }
    assert k == FirstExcluded(tokens, excluded);
  }

  /** One fragment: its tokens are walked by the inner loop. */
  method EmitFragment(fragment: string, excluded: seq<string>, document: string) returns (triples: seq<Triple>)
    ensures triples == SentenceTriples(fragment, excluded, document)
  {
    var tokens := SplitWhitespace(fragment);
    var sentence := CleanSentence(fragment);
    triples := EmitTokens(tokens, excluded, sentence, document);
  }

  lemma FragmentsTriplesStep(fragments: seq<string>, f: nat, excluded: seq<string>, document: string)
    requires f < |fragments|
    ensures FragmentsTriples(fragments[..f + 1], excluded, document)
         == FragmentsTriples(fragments[..f], excluded, document) + SentenceTriples(fragments[f], excluded, document)
  {
    assert fragments[..f + 1][..f] == fragments[..f];
  }

  lemma ContentStep(docs: seq<Document>, d: nat, excluded: seq<string>)
    requires d < |docs|
    ensures Content(docs[..d + 1], excluded) == Content(docs[..d], excluded) + DocumentTriples(docs[d], excluded)
  {
    assert docs[..d + 1][..d] == docs[..d];
  }

  /** The loop of `get_content` over the `.`-fragments of one document. */
  method EmitDocument(doc: Document, excluded: seq<string>) returns (triples: seq<Triple>)
    ensures triples == DocumentTriples(doc, excluded)
  {
    var fragments := Fragments(doc.text);
    triples := [];
    var f := 0;
    while f < |fragments|
      invariant 0 <= f <= |fragments|
      invariant triples == FragmentsTriples(fragments[..f], excluded, doc.name)
    {
      var more := EmitFragment(fragments[f], excluded, doc.name);
      FragmentsTriplesStep(fragments, f, excluded, doc.name);
      triples := triples + more;
      f := f + 1;
    }
    assert fragments[..f] == fragments;
  }

  /**
   * `get_content` made eager: the loop over the documents. With no document at
   * all, `get_files` raises FilesNotPresentException before anything is read.
   */
  method GetContent(docs: seq<Document>, excluded: seq<string>) returns (r: Result<seq<Triple>, Error>)
    ensures docs == [] ==> r == Failure(FilesNotPresent)
    ensures docs != [] ==> r == Success(Content(docs, excluded))
  {
    if docs == [] {
      return Failure(FilesNotPresent);
    }
    var content: seq<Triple> := [];
    var d := 0;
    while d < |docs|
      invariant 0 <= d <= |docs|
      invariant content == Content(docs[..d], excluded)
    {
      var triples := EmitDocument(docs[d], excluded);
      ContentStep(docs, d, excluded);
      content := content + triples;
      d := d + 1;
    }
    assert docs[..d] == docs;
    return Success(content);
  }

  // ---------------------------------------------------------------- properties

  /** What every emitted triple looks like. */
  ghost predicate WellFormed(t: Triple, names: set<string>) {
    && (t.word == [] || (t.word[0] != ',' && t.word[|t.word| - 1] != ','))
    && NoSpace(t.word) && '.' !in t.word && NoUpper(t.word)
    && (t.sentence == [] || (!IsSpace(t.sentence[0]) && !IsSpace(t.sentence[|t.sentence| - 1])))
    && '.' !in t.sentence && NoUpper(t.sentence)
    && t.document in names
  }

  /** The triple stored for one whitespace token of a fragment is well formed. */
  lemma TripleWellFormed(token: string, fragment: string, document: string, names: set<string>)
    requires '.' !in fragment && NoUpper(fragment) && document in names
    requires NoSpace(token) && CharsFrom(token, fragment)
    ensures WellFormed(Triple(CleanWord(token), CleanSentence(fragment), document), names)
  {
    var w := CleanWord(token);
    var s := CleanSentence(fragment);
    CharsFromInherits(s, fragment);
    CharsFromInherits(token, fragment);
    CharsFromInherits(w, token);
  }

  lemma SentenceTriplesWellFormed(fragment: string, excluded: seq<string>, document: string, names: set<string>)
    requires '.' !in fragment && NoUpper(fragment) && document in names
    ensures forall t :: t in SentenceTriples(fragment, excluded, document) ==> WellFormed(t, names)
  {
    var r := SentenceTriples(fragment, excluded, document);
    var tokens := SplitWhitespace(fragment);
    BreakOnExclusion(fragment, excluded, document);
    forall i | 0 <= i < |r| ensures WellFormed(r[i], names) {
      TripleWellFormed(tokens[i], fragment, document, names);
    }
  }

  lemma {:induction false} FragmentsTriplesWellFormed(fragments: seq<string>, excluded: seq<string>, document: string, names: set<string>)
    requires forall i :: 0 <= i < |fragments| ==> '.' !in fragments[i] && NoUpper(fragments[i])
    requires document in names
    ensures forall t :: t in FragmentsTriples(fragments, excluded, document) ==> WellFormed(t, names)
    decreases |fragments|
  {
    if fragments != [] {
      var n := |fragments| - 1;
      FragmentsTriplesWellFormed(fragments[..n], excluded, document, names);
      SentenceTriplesWellFormed(fragments[n], excluded, document, names);
    }
  }

  /** The names of the documents read. */
  function Names(docs: seq<Document>): (names: set<string>)
    ensures forall i :: 0 <= i < |docs| ==> docs[i].name in names
    ensures forall n :: n in names ==> exists i :: 0 <= i < |docs| && docs[i].name == n
  {
    set d | d in docs :: d.name
  }

  /**
   * Shape of each triple: the word has no comma at either end and no whitespace,
   * the sentence has no whitespace at either end, neither holds a '.' or an
   * upper-case letter, and the document is one of the documents read.
   */
  lemma {:induction false} ContentWellFormed(docs: seq<Document>, excluded: seq<string>)
    ensures forall t :: t in Content(docs, excluded) ==> WellFormed(t, Names(docs))
    decreases |docs|
  {
    if docs != [] {
      var n := |docs| - 1;
      ContentWellFormed(docs[..n], excluded);
      var doc := docs[n];
      FragmentsTriplesWellFormed(Fragments(doc.text), excluded, doc.name, Names(docs));
      assert Names(docs[..n]) <= Names(docs);
      forall t | t in Content(docs[..n], excluded) ensures WellFormed(t, Names(docs)) {
        assert WellFormed(t, Names(docs[..n]));
      }
    }
  }

  lemma {:induction false} FragmentsTriplesEmpty(fragments: seq<string>, excluded: seq<string>, document: string)
    requires forall i :: 0 <= i < |fragments| ==>
      var tokens := SplitWhitespace(fragments[i]); tokens == [] || tokens[0] in excluded
    ensures FragmentsTriples(fragments, excluded, document) == []
    decreases |fragments|
  {
    if fragments != [] {
      var n := |fragments| - 1;
      FragmentsTriplesEmpty(fragments[..n], excluded, document);
      assert |SentenceTriples(fragments[n], excluded, document)| == 0;
    }
  }

  /**
   * A document yields no triple when every one of its fragments has no token or
   * starts with an excluded token.
   */
  lemma DocumentWithoutWords(doc: Document, excluded: seq<string>)
    requires forall i :: 0 <= i < |Fragments(doc.text)| ==>
      var tokens := SplitWhitespace(Fragments(doc.text)[i]); tokens == [] || tokens[0] in excluded
    ensures DocumentTriples(doc, excluded) == []
  {
    FragmentsTriplesEmpty(Fragments(doc.text), excluded, doc.name);
  }

  /** A piece of a text of only whitespace and '.' that holds no '.' has no token. */
  lemma BlankFragment(piece: string, text: string)
    requires forall j :: 0 <= j < |text| ==> IsSpace(text[j]) || text[j] == '.'
    requires CharsFrom(piece, text) && '.' !in piece
    ensures SplitWhitespace(piece) == []
  {
    SplitWhitespaceEmpty(piece);
    forall k | 0 <= k < |piece| ensures IsSpace(piece[k]) {
      var j :| 0 <= j < |text| && text[j] == piece[k];
    }
  }

  /** A text made only of whitespace and '.' yields no triple, whatever is excluded. */
  lemma BlankDocument(doc: Document, excluded: seq<string>)
    requires forall i :: 0 <= i < |doc.text| ==> IsSpace(doc.text[i]) || doc.text[i] == '.'
    ensures DocumentTriples(doc, excluded) == []
  {
    var lowered := Lower(doc.text);
    assert forall j :: 0 <= j < |lowered| ==> IsSpace(lowered[j]) || lowered[j] == '.';
    var fragments := SplitOn(lowered, '.');
    assert fragments == Fragments(doc.text);
    forall i | 0 <= i < |fragments| ensures SplitWhitespace(fragments[i]) == [] {
      BlankFragment(fragments[i], lowered);
    }
    DocumentWithoutWords(doc, excluded);
  }

  lemma ExampleFirstToken()
    ensures SplitWhitespace("the, cat") == ["the,"] + SplitWhitespace(" cat")
  {
    assert "the, cat" == "the," + " cat";
    SplitWhitespaceToken("the,", " cat");
  }

  lemma ExampleSecondToken()
    ensures SplitWhitespace(" cat") == ["cat"]
  {
    assert " cat"[1..] == "cat";
    assert "cat" == "cat" + "";
    SplitWhitespaceToken("cat", "");
  }

  lemma ExampleTokens()
    ensures SplitWhitespace("the, cat") == ["the,", "cat"]
  {
    ExampleFirstToken();
    ExampleSecondToken();
  }

  lemma ExampleWords()
    ensures CleanWord("the,") == "the"
    ensures CleanWord("cat") == "cat"
  {
    assert LeadingCount("the,", Comma) == 0;
    assert TrailingCount("the,", Comma) == 1 by {
      assert "the,"[..3] == "the";
    }
    assert "the,"[0..3] == "the";
    assert LeadingCount("cat", Comma) == 0;
    assert TrailingCount("cat", Comma) == 0;
    assert "cat"[0..3] == "cat";
  }

  lemma ExampleSentence()
    ensures CleanSentence("the, cat") == "the, cat"
  {
    var s := "the, cat";
    assert LeadingCount(s, Newline) == 0 && TrailingCount(s, Newline) == 0;
    assert s[0..8] == s;
    assert LeadingCount(s, Whitespace) == 0 && TrailingCount(s, Whitespace) == 0;
  }

  /** Neither "the," nor "cat" is the excluded word "the", so nothing breaks. */
  lemma ExampleBreak()
    ensures FirstExcluded(["the,", "cat"], ["the"]) == 2
  {
    var tokens: seq<string> := ["the,", "cat"];
    assert "the," !in ["the"] && "cat" !in ["the"];
    assert tokens[1..] == ["cat"] && tokens[1..][1..] == [];
  }

  lemma ExampleEmit()
    ensures Emit(["the,", "cat"], 2, "the, cat", "a.txt")
         == [Triple("the", "the, cat", "a.txt"), Triple("cat", "the, cat", "a.txt")]
  {
    ExampleWords();
    var r := Emit(["the,", "cat"], 2, "the, cat", "a.txt");
    assert r[0] == Triple("the", "the, cat", "a.txt");
    assert r[1] == Triple("cat", "the, cat", "a.txt");
  }

  /**
   * The exclusion test sees the raw token: with "the" excluded, the token "the,"
   * is not excluded and is stored as the word "the".
   */
  lemma ExclusionSeesRawToken()
    ensures SentenceTriples("the, cat", ["the"], "a.txt")
         == [Triple("the", "the, cat", "a.txt"), Triple("cat", "the, cat", "a.txt")]
  {
    ExampleTokens();
    ExampleSentence();
    ExampleBreak();
    ExampleEmit();
  }
}
