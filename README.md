# Word-frequency analyser, modelled in Dafny

`document_analyser.py` reads every `.txt` document in a directory and reports the most frequent words. For each word the report gives the names of the documents that hold it and the sentences it appears in. An optional word file lists words to exclude. An optional size says how many rows to print; it defaults to 10.

The model follows the program's pipeline, one module per stage:

- `Text`: the Python string operations the program relies on, over ASCII characters. These are `lower()`, `split('.')`, `split()`, `strip(chars)`, `strip()`, `isnumeric()` and `int()`.
- `Tokenizer`: `get_content`.
  - A document is a name and a text.
  - The text is lower-cased and cut at every `.`.
  - Each fragment is split on whitespace. Its tokens are emitted in order as `(word, sentence, document)` triples, until the first token that is in the exclusion list (the `break`).
  - The nested loops are methods. Each is proved equal to a recursive reference function (`SentenceTriples`, `DocumentTriples`, `Content`).
- `WordCounts`: the `WordCount` class. It has the fields `count`, `sentences` and `documentNames`, and an `Increment` method that updates them in place.
- `Aggregator`: `count_occurrence`.
  - `FillOccurrences` is the loop that fills a dictionary from word to `WordCount` objects. It creates a missing entry on first access and increments the entry's object.
  - The dictionary is a `map` of objects together with the sequence of its keys in insertion order, which is the order Python dictionaries keep.
  - The loop is proved against `Tally`, a fold of the stream into records. `Tally` is proved equal to `RecordOf`, a direct definition: the count, sentences and documents of each word.
- `Ranker`: `sorted(..., key=lambda kv: -kv[1].count)`.
  - It is written as an insertion sort on entries.
  - Its contract pins down the result of any stable sort by descending count: a permutation with non-increasing counts, in which the entries of each count keep their earlier order. That result is unique, so the choice of algorithm does not matter.
- `Analyser`:
  - the size check and `int()` on the size;
  - the exclusion list (`read().lower().split()`);
  - `get_result`;
  - `Analyse`, one whole run over given documents.

Three details of the code that the model follows as written:

- `word.strip(',')` removes every leading and trailing comma. A token made only of commas becomes the empty word.
- The exclusion test looks at the raw token, before its commas are stripped. So the token `"the,"` is stored as the word `"the"` even when `"the"` is excluded, although the module docstring (document_analyser.py:7-9) describes the word file as "a list of words to be excluded from the results". `Tokenizer.ExclusionSeesRawToken` exhibits the case.
- `if not content` in `count_occurrence` tests a generator object, which is always truthy, so FilesEmptyException is never raised (see Findings).

## Model

| member | source | states |
|---|---|---|
| Text.Lower | document_analyser.py:53 | `lower()` keeps the length and leaves no upper-case letter; other characters are unchanged, and each upper-case letter becomes its lower-case letter |
| Text.SplitOn | document_analyser.py:54 | `split('.')` yields at least one piece; no piece contains the separator; every piece's characters come from the text |
| Text.JoinSplitOn | document_analyser.py:54 | joining the pieces of `split(sep)` with `sep` gives back the text |
| Text.SplitOnJoin | document_analyser.py:54 | splitting a join of separator-free pieces gives back the pieces |
| Text.SplitWhitespace | document_analyser.py:55 | `split()` yields only non-empty, whitespace-free tokens drawn from the text |
| Text.SplitWhitespaceEmpty | document_analyser.py:55 | `split()` yields no token exactly when every character is whitespace |
| Text.SplitWhitespaceToken | document_analyser.py:55 | a whitespace-free token followed by whitespace or the end is split off whole |
| Text.LeadingSpaceSkipped | document_analyser.py:55 | leading whitespace yields no token; with `SplitWhitespaceToken` this fixes the tokens of every text as its maximal non-whitespace runs, in order |
| Text.SplitWhitespaceJoinSpaced | document_analyser.py:36 | `split()` of non-empty, whitespace-free words joined by spaces gives back the words |
| Text.Strip | document_analyser.py:59 | `strip(chars)` is the slice between the leading and trailing runs of `chars`; it neither starts nor ends with one of them, and it is empty exactly when every character is one of them |
| Text.LeadingCount | document_analyser.py:59 | the leading run of stripped characters is maximal |
| Text.TrailingCount | document_analyser.py:59 | the trailing run of stripped characters is maximal |
| Text.IsNumeric | document_analyser.py:32 | `isnumeric()` on ASCII text: non-empty and made of the digits '0'-'9' only; `DecimalString` and `ParseSize` state what it accepts |
| Text.DecimalValue | document_analyser.py:89 | `int()` of a digit string, most significant digit first; `DecimalValueOfString` and `DecimalValueLeadingZero` state its meaning |
| Text.DecimalString | document_analyser.py:32 | the decimal spelling of a number passes `isnumeric()` |
| Text.DecimalValueOfString | document_analyser.py:89 | `int()` of a number's decimal spelling is that number |
| Text.DecimalValueLeadingZero | document_analyser.py:89 | a leading zero does not change `int()` |
| Tokenizer.CleanWord | document_analyser.py:59 | the stored word never starts or ends with a comma and holds only characters of the raw token |
| Tokenizer.CommasOnlyWord | document_analyser.py:59 | a token made only of commas is stored as the empty word |
| Tokenizer.CleanSentence | document_analyser.py:59 | the stored sentence has no whitespace at either end and holds only characters of its fragment |
| Tokenizer.Fragments | document_analyser.py:53-54 | the lower-cased text has at least one fragment; no fragment holds a '.' or an upper-case letter |
| Tokenizer.FirstExcluded | document_analyser.py:55-57 | the `break` falls at the first token in the exclusion list, or after the last token if there is none |
| Tokenizer.Emit | document_analyser.py:59 | the first k tokens give k triples, each with the comma-stripped token, the cleaned sentence and the document name |
| Tokenizer.SentenceTriples | document_analyser.py:55-59 | the reference for one fragment's triples; `BreakOnExclusion` states what it yields and `EmitFragment` is proved equal to it |
| Tokenizer.BreakOnExclusion | document_analyser.py:55-59 | one fragment yields exactly its tokens in order, up to and not including the first one in the exclusion list, judged on the raw token before comma stripping; each triple holds the comma-stripped token, the cleaned fragment and the document name |
| Tokenizer.EmitTokens | document_analyser.py:55-59 | the token loop with its `break` yields one triple per token before the first excluded one |
| Tokenizer.FragmentsTriples | document_analyser.py:54-59 | the reference for a document's fragments, fragment after fragment; `EmitDocument` is proved equal to it |
| Tokenizer.DocumentTriples | document_analyser.py:53-59 | the reference for one document: its lower-cased text cut at '.' and passed to `FragmentsTriples` with the document's name |
| Tokenizer.Content | document_analyser.py:50-59 | the reference for the whole stream of `get_content`, document after document; `GetContent` is proved equal to it and `ContentWellFormed` states the shape of its triples |
| Tokenizer.EmitFragment | document_analyser.py:54-59 | one fragment's pass yields the triples `BreakOnExclusion` describes |
| Tokenizer.EmitDocument | document_analyser.py:53-59 | the fragment loop yields the document's triples, fragment after fragment |
| Tokenizer.GetContent | document_analyser.py:44-59 | no document raises FilesNotPresentException; otherwise the stream is the documents' triples, document after document |
| Tokenizer.TripleWellFormed | document_analyser.py:59 | the triple stored for a whitespace token of a lower-case, '.'-free fragment is well formed |
| Tokenizer.SentenceTriplesWellFormed | document_analyser.py:54-59 | every triple of a lower-cased, '.'-free fragment is well formed |
| Tokenizer.FragmentsTriplesWellFormed | document_analyser.py:54-59 | every triple of a sequence of such fragments is well formed |
| Tokenizer.ContentWellFormed | document_analyser.py:53-59 | every emitted triple has a word with no comma at either end and no whitespace, and a sentence with no whitespace at either end; neither holds a '.' or an upper-case letter, and the document is one of those read |
| Tokenizer.FragmentsTriplesEmpty | document_analyser.py:54-57 | fragments that all have no token, or start with an excluded token, yield nothing |
| Tokenizer.DocumentWithoutWords | document_analyser.py:54-57 | a document whose every fragment has no token or starts with an excluded token yields no triple |
| Tokenizer.BlankFragment | document_analyser.py:54-55 | a '.'-free piece of a text of only whitespace and '.' has no token |
| Tokenizer.BlankDocument | document_analyser.py:53-57 | a text of only whitespace and '.' yields no triple, whatever is excluded |
| Tokenizer.ExclusionSeesRawToken | document_analyser.py:56-59 | with "the" excluded, the fragment "the, cat" still yields the words "the" and "cat" |
| WordCounts.IncrementedBounded | document_analyser.py:79-83 | an increment keeps the count at least the number of sentences and of documents, and makes it positive |
| WordCounts.Incremented | document_analyser.py:79-83 | the record after `increment` as a value: count plus one, the sentence and the document name added; `WordCount.Increment` is proved to move its object's record to it |
| WordCounts.WordCount.constructor | document_analyser.py:74-77 | a new `WordCount` has count 0 and two empty sets |
| WordCounts.WordCount.Increment | document_analyser.py:79-83 | the count rises by exactly one; the sentence and the document name are added; nothing is removed; the bound on the count is kept |
| Ranker.InsertPermutes | document_analyser.py:69 | inserting an entry adds exactly that entry |
| Ranker.InsertNonIncreasing | document_analyser.py:69 | inserting into a list with non-increasing counts keeps the counts non-increasing |
| Ranker.InsertStable | document_analyser.py:69 | inserting an entry keeps the relative order of the entries of every count |
| Ranker.RankByCount | document_analyser.py:69 | the sort is a permutation with non-increasing counts, and the entries of each count keep the order they had |
| Ranker.DistinctPermutation | document_analyser.py:69 | a rearrangement of a sequence without repetitions has none |
| Ranker.RankByCountKeys | document_analyser.py:69 | ranking items with unique keys keeps the keys unique and lists exactly the same items |
| Ranker.RankByCountTies | document_analyser.py:69 | two entries with the same count come out in the order they went in |
| Aggregator.RecordOfStep | document_analyser.py:67-68 | one more triple changes its own word's record by one increment, and no other record |
| Aggregator.RecordOf | document_analyser.py:63-68 | the reference record of a word after the whole stream: its number of triples and the sets of their sentences and documents; `TallyIsRecordOf` proves the loop's dictionary equal to it |
| Aggregator.Tally | document_analyser.py:63-68 | the dictionary as the loop builds it, one `Bump` per triple; `FillOccurrences` is proved to end in it |
| Aggregator.Bump | document_analyser.py:68 | one loop step on values: the word's record, fresh if missing as `defaultdict` makes it, is incremented; `Tick` is proved to perform it on the objects |
| Aggregator.TallyIsRecordOf | document_analyser.py:63-68 | the dictionary the loop builds holds, for each emitted word, its number of occurrences and the sets of its sentences and documents |
| Aggregator.RecordOfAbsent | document_analyser.py:63 | a word that never occurs has the record of a fresh `WordCount` |
| Aggregator.RecordOfBounded | document_analyser.py:67-68 | every count is at least the number of its sentences and of its documents, and it is positive exactly for the emitted words |
| Aggregator.FirstIndex | document_analyser.py:63 | the position of a word's first occurrence |
| Aggregator.FirstOccurrences | document_analyser.py:63-68 | the dictionary's keys in insertion order: no repetitions, and the same words as the stream |
| Aggregator.FirstOccurrencesOrdered | document_analyser.py:63-68 | the keys come in the order of the words' first occurrences |
| Aggregator.Entries | document_analyser.py:69 | `occurrence_dict.items()`: the keys in insertion order, each with its record; `EntriesKeys`, `EntriesRecords` and `EntriesInsertionOrder` state its properties |
| Aggregator.EntriesKeys | document_analyser.py:69 | the dictionary's items have distinct keys and cover every emitted word and nothing else |
| Aggregator.EntriesRecords | document_analyser.py:69 | each item holds its word's record, with count at least 1, at least the number of its sentences and at least the number of its documents |
| Aggregator.EntriesInsertionOrder | document_analyser.py:63-69 | the items come in the order of their words' first occurrences |
| Aggregator.RankingListsEachWordOnce | document_analyser.py:67-69 | the ranking lists every emitted word exactly once, with its record, and nothing else |
| Aggregator.RankingTiesInInsertionOrder | document_analyser.py:69 | words with equal counts are ranked in the order they first occurred |
| Aggregator.OrderStep | document_analyser.py:68 | one more triple appends its word to the keys when the word is new, and leaves them alone otherwise |
| Aggregator.Tick | document_analyser.py:68 | `occurrence_dict[word].increment(...)`: a missing word gets a new object and joins the keys at the end; that word's record is incremented; other objects are untouched |
| Aggregator.FillOccurrences | document_analyser.py:63-68 | after the loop the keys are the first occurrences in order, each maps to its own new object, and the objects hold the records of `Tally` |
| Aggregator.Items | document_analyser.py:69 | `items()` pairs each key, in order, with its object's current record |
| Aggregator.CountOccurrence | document_analyser.py:61-70 | an empty stream raises FilesEmptyException; otherwise the result is the stable ranking, by descending count, of the dictionary's items in insertion order |
| Aggregator.CountOccurrenceAsWritten | document_analyser.py:64-66 | as written, `count_occurrence` never reports an empty stream |
| Aggregator.EmptyContentNotSignalledAsWritten | document_analyser.py:64-66 | as written, an empty stream gives an empty ranking instead of FilesEmptyException |
| Analyser.ParseSize | document_analyser.py:32-33 | the size is refused with LinesNumberException exactly when it is not a non-empty string of digits |
| Analyser.ParseSizeDecimal | document_analyser.py:89 | every size written in decimal is accepted and read as itself |
| Analyser.ParseSizeLeadingZero | document_analyser.py:32-33 | a leading zero is accepted and does not change the size |
| Analyser.ExclusionList | document_analyser.py:35-38 | with no word file the list is empty; otherwise its words are non-empty, lower-case and whitespace-free |
| Analyser.JoinSpacedNoUpper | document_analyser.py:36 | lower-case words joined by spaces give a lower-case text |
| Analyser.LowerOfLower | document_analyser.py:36 | `lower()` leaves a text with no upper-case letters unchanged |
| Analyser.ExclusionListOfWords | document_analyser.py:36 | a word file of lower-case words separated by spaces yields exactly those words |
| Analyser.Top | document_analyser.py:85-90 | the first n rows of the ranking, or all rows when there are fewer, each the word with its document names and sentences |
| Analyser.RowOf | document_analyser.py:90 | the yielded tuple: the word, its document names and its sentences |
| Analyser.GetResult | document_analyser.py:85-90 | the corrected loop yields the rows of `Top`, stopping after n rows or at the end of the ranking |
| Analyser.GetResultAsWritten | document_analyser.py:85-90 | as written, with n > 0 the loop yields the first row on every step, and on an empty ranking raises IndexError; with n = 0 it yields nothing |
| Analyser.Analyse | document_analyser.py:32-90 | a run as evidently intended, built from the corrected `CountOccurrence` and `GetResult`: it fails first on a non-numeric size, then on a missing document, then on an empty stream; otherwise it yields the top n rows of the ranking |
| Analyser.TopOfRanking | document_analyser.py:85-90 | on a ranking with non-increasing counts, no entry left out of the top rows counts more than an entry shown, and nothing is left out when fewer than n rows come out |
| Analyser.TopRowsAreMostFrequent | document_analyser.py:85-90 | the rows name different emitted words with their sentences and documents, with non-increasing counts; no word left out counts more than a word shown; every word is shown when fewer than n rows come out |

## Left out

- Scanning the directory (`glob.glob('*.txt')`), opening and reading files, and `basename`: the documents are given as a sequence of names and texts, in the order the directory listing would give them.
- `argparse`: the size string and the optional word-file text are parameters. The default size "10" is the caller's choice.
- `print` and the `try`/`except` that turns exceptions into messages: a run returns the error instead. LinesNumberException is raised at line 33, outside the `try`, so its message is never printed; the model returns the error just the same.
- Generator laziness: `get_content` and `get_result` are modelled as producing finite sequences.
- Unicode: `lower()`, `split()`, `strip()` and `isnumeric()` are modelled on ASCII characters. Whitespace is the ASCII part of Python's `str.isspace`, including the separators 0x1C-0x1F. Python's `isnumeric()` also accepts non-ASCII numerals, which `int()` may then reject; that case is not modelled.
- Analyser.Analyse: models the run with both findings corrected. The program as written never raises FilesEmptyException and, for a size n > 0, never stops; those behaviours are stated by Aggregator.CountOccurrenceAsWritten and Analyser.GetResultAsWritten, not by Analyse.
- Analyser.GetResultAsWritten: the generator as written never ends. The model follows it for a given number of steps and does not capture the infinite run.
- Analyser.GetResult: the corrected loop also stops at the end of the ranking. Only advancing `i` would still raise IndexError once n exceeds the number of words; the model follows the documented intent, the first n rows or all of them.
- Ranker.RankByCount: Python sorts with Timsort; the model sorts by insertion. A stable sort on the same key has a single possible result, so the output is the same.

## Findings

| source | as written | input that shows it | evidently intended | confidence | as-written member | corrected member |
|---|---|---|---|---|---|---|
| document_analyser.py:85-90 | `i` is never advanced, so `while i < int(args.number)` yields `result[0]` forever, and raises IndexError at once on an empty ranking | any size n > 0: the first row is repeated without end; an empty ranking with n > 0 raises IndexError | yield the first n rows of the ranking, as the module docstring (lines 5-6) describes | not executed | Analyser.GetResultAsWritten | Analyser.GetResult |
| document_analyser.py:64-66 | `if not content` tests the generator returned by `get_content()`, which is always truthy, so FilesEmptyException is never raised | documents that exist but hold only whitespace and '.' (see Tokenizer.BlankDocument): the stream is empty and the ranking is empty, with no error | raise FilesEmptyException when no word was emitted | not executed | Aggregator.EmptyContentNotSignalledAsWritten | Aggregator.CountOccurrence |
