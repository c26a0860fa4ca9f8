# Study-assistant core: reply repair and the document store

This project is a Dafny model of the two parts of the study assistant that hold its logic.

- **`LLMService`** turns the free text a local language-model backend returns into quiz questions and concept records. In order, it:
  - cuts the first `{` … last `}` out of the reply;
  - removes trailing commas;
  - decodes the JSON;
  - strips enumerator prefixes from the options;
  - maps a bare answer letter to its option.

  When any of this fails, it builds deterministic fallback questions and concepts instead.
- **`DocumentProcessor`** keeps uploaded documents in two tables, `documents` and `chunks`:
  - it deduplicates by content hash;
  - it rejects unsupported suffixes, blank text and filenames already in use;
  - it returns the chunks of a document by index;
  - a search ranks the chunks of every document against per-chunk similarity scores.

Modules:

- `Wrappers`: `Option` and `Result`.
- `Text`: Python's whitespace set, `strip()`, `split()`, `" ".join`, `s[:n]` and `str(n)`, with their lemmas.
- `Json`: the values `json.loads` returns, `dict.get` and truthiness.
- `Repair`: `clean_json_trailing_commas`, `strip_option_prefix` and the greedy `\{.*\}` search.
- `Quiz`: `generate_quiz_questions` and `_create_fallback_questions`.
- `Concepts`: `extract_concepts` and `_create_fallback_concepts`.
- `Ranking`: per-document top-k selection (numpy `argsort(...)[-k:][::-1]`) and the stable descending sort.
- `CorpusStore`: the `DocumentStore` class, with `process_document`, `extract_text`'s dispatch, `get_document_chunks` and `search_documents`.

Some things are parameters of the operations rather than code in the model:

- the JSON decoder: `parse: string -> Option<Value>`, where `None` is `JSONDecodeError`;
- the backend reply: `response`;
- the SHA-256 function;
- the per-format text extractors: `read`;
- the text splitter: `split`;
- the similarity scores: `scores`, a sequence of reals per document;
- the order in which `get_documents` lists the documents: `order`.

Exceptions that escape `generate_quiz_questions` are the outcome `Raised`. Only `json.JSONDecodeError` is caught there.

## Model

| member | source | states |
|---|---|---|
| Text.Strip | llm_service.py:17 | the result has no leading or trailing whitespace; it is the slice of the input between its leading and trailing whitespace; it is empty exactly when the input is all whitespace |
| Text.StripPadded | llm_service.py:17 | stripping `front + t + back`, with whitespace-only `front` and `back` and an already-stripped `t`, gives `t` |
| Text.Words | llm_service.py:298 | `split()` yields non-empty, whitespace-free words, and none exactly when the text is blank |
| Text.Join | llm_service.py:299 | `sep.join(ws)`: the first word begins the result, and a single word is the result itself; `Text.JoinSingleSpaced` and `Text.WordsOfJoin` state the rest of what `" ".join` gives |
| Text.JoinSingleSpaced | llm_service.py:299 | `" ".join` of non-empty, whitespace-free words has no whitespace at either end, and every gap between words is exactly one `' '` |
| Text.WordsOfJoin | llm_service.py:299 | splitting words joined by single spaces gives back the same words |
| Text.WordThenRest | llm_service.py:298 | a whitespace-free word followed by whitespace or nothing is the first word `split()` yields, followed by the words of the rest |
| Text.Take | llm_service.py:296 | Python's `s[:n]`: a prefix of length `min(n, len(s))` |
| Text.NatToString | llm_service.py:299 | `str(n)`: decimal digits without a leading zero |
| Text.DecimalRoundTrip | llm_service.py:299 | reading back `str(n)` gives `n` |
| Json.Truthy | llm_service.py:264-266 | false exactly for Python's falsy values `None`, `False`, `0`, `""`, `[]` and `{}` |
| Json.Get | llm_service.py:130 | `dict.get(key, default)`: the stored value when the key is present, else the default |
| Repair.CleanTrailingCommas | llm_service.py:8-11 | never longer than the input; a string without a comma is unchanged |
| Repair.CleanIsSubsequence | llm_service.py:10 | the output is a subsequence of the input: characters are only deleted |
| Repair.CleanKeepsSignificant | llm_service.py:10 | every character other than commas and whitespace, including every `}` and `]`, survives in order |
| Repair.CleanIsKept | llm_service.py:10 | the repair equals `Kept`, a position-by-position reference: it deletes exactly the characters that some match of `,\s*[}\]]` covers, that is the matching commas and the whitespace between each and its bracket, and keeps every other character in order |
| Repair.CleanChangesIff | llm_service.py:10 | the output equals the input exactly when no comma is followed, after optional whitespace, by `}` or `]`; otherwise it is strictly shorter |
| Repair.CleanExampleList | llm_service.py:10 | `[1,2,]` becomes `[1,2]` |
| Repair.CleanNotIdempotent | llm_service.py:10 | `,,]` becomes `,]`, and a second pass gives `]`: one pass is not a fixed point |
| Repair.OptionPrefixLength | llm_service.py:17 | the anchored prefix is `Option X:` (9 characters) or a capital A–D followed by one of `.`, `\|`, `)`, `:` (2 characters), by if-and-only-if; otherwise 0 |
| Repair.StripOptionPrefix | llm_service.py:15-17 | the result is stripped and no longer than the input; without a prefix it is the plain `strip()` |
| Repair.StripLetterPrefix | llm_service.py:17 | `X` + punctuation + whitespace + text + whitespace gives the text |
| Repair.StripOptionWordPrefix | llm_service.py:17 | `Option X:` + whitespace + text + whitespace gives the text |
| Repair.StripOptionPrefixKeepsPlain | llm_service.py:17 | a stripped text without a prefix is unchanged |
| Repair.StripExampleLetter | llm_service.py:17 | `A. Paris` gives `Paris` |
| Repair.StripExampleWord | llm_service.py:17 | `Option B: London` gives `London` |
| Repair.StripExampleOnce | llm_service.py:17 | `A. B. x` gives `B. x`: only one prefix is removed |
| Repair.StripExampleIndented | llm_service.py:17 | ` A. x` gives `A. x`: a leading space blocks the prefix |
| Repair.StripExampleNotLetter | llm_service.py:17 | `a. x` and `E. x` are unchanged |
| Repair.FirstIndexOf | llm_service.py:124 | the position of the first occurrence, which does not occur before it, or None when absent |
| Repair.LastIndexOf | llm_service.py:124 | the position of the last occurrence, which does not occur after it, or None when absent |
| Repair.FirstIndexAt | llm_service.py:124 | a position holding the character with no earlier copy is the first occurrence |
| Repair.LastIndexAt | llm_service.py:124 | a position holding the character with no later copy is the last occurrence |
| Repair.ExtractObject | llm_service.py:124 | a match exists exactly when some `{` comes before some `}`; it is the inclusive slice from the first `{` to the last `}` |
| Repair.ExtractObjectBraces | llm_service.py:124 | a match starts with `{`, ends with `}` and has at least two characters |
| Repair.ExtractExampleProse | llm_service.py:124 | prose around an object is cut away and nested braces are kept |
| Repair.ExtractExampleReversed | llm_service.py:124 | `} {` has no match |
| Quiz.StrippedOptions | llm_service.py:133-134 | a list of strings is stripped element by element; a string is iterated by characters; anything else raises |
| Quiz.ChoiceIndex | llm_service.py:137-139 | defined exactly for a trimmed single letter a–d or A–D; gives that letter's position in `ABCD` |
| Quiz.FixQuestion | llm_service.py:132-146 | raises exactly for a non-dict (at the latest in the logging loop's `q.get`), for options that cannot be stripped, or for a `correct_answer` without `options` or that is not a string; only `options`, `correct_answer` and `correct` can change; the options are the stripped ones; without a `correct_answer` the keys are the same and an existing `correct` stays |
| Quiz.FixWithoutAnswer | llm_service.py:132-146 | without a `correct_answer` the fixed question is the original with only its options replaced by the stripped ones |
| Quiz.FixKeepsMatchingAnswer | llm_service.py:136 | an answer equal to a stripped option leaves `correct_answer` and `correct` as they were |
| Quiz.FixMapsLetter | llm_service.py:138-142 | a usable letter sets `correct_answer` to that option and `correct` to its index, so `options[correct] == correct_answer` |
| Quiz.FixLeavesOtherAnswer | llm_service.py:138-140 | any other answer, or a letter past the end of the options, leaves `correct_answer` and `correct` untouched |
| Quiz.FixAnswer | llm_service.py:136-142 | the answer repair adds at most `correct_answer` and `correct` and leaves every other field as it was |
| Quiz.StrippedPlainOptions | llm_service.py:133-134 | options that are already stripped and carry no prefix come through unchanged |
| Quiz.LetterA | llm_service.py:137-139 | the bare answer `A` names option 0 |
| Quiz.FixExampleCapital | llm_service.py:136-142 | options Paris/London/Berlin/Madrid with answer `A` give `Paris` and `correct` 0 |
| Quiz.NormalizeQuestions | llm_service.py:132-142 | the loop fixes every question in place, in order; one raising question raises all |
| Quiz.NormalizationKeepsCount | llm_service.py:132-152 | the count and order of questions are kept, and so are their other fields |
| Quiz.MultipleChoice | llm_service.py:172-184 | a fallback question is a well-formed multiple choice with `correct` 0 and `correct_answer == options[0]` |
| Quiz.FallbackTemplate | llm_service.py:170-214 | every level gives a well-formed template with `correct` 0 |
| Quiz.FallbackTemplateDefault | llm_service.py:200-214 | every level other than 1 and 2 gets the application template |
| Quiz.FallbackTemplatesDiffer | llm_service.py:170-214 | the three templates are pairwise different |
| Quiz.FallbackCount | llm_service.py:167 | 0 when `num_questions` is negative; otherwise `min(num_questions, len(chunks))` |
| Quiz.RepeatQuestion | llm_service.py:166-215 | the append loop yields exactly `n` copies of the question, none for a negative `n` |
| Quiz.CreateFallbackQuestions | llm_service.py:164-216 | `FallbackCount` copies of the template for the mastery level |
| Quiz.FallbackQuizWellFormed | llm_service.py:164-216 | every fallback question is well formed, with its answer being option 0 |
| Quiz.Decoded | llm_service.py:124-129 | no `{...}` match means nothing to decode |
| Quiz.QuestionItems | llm_service.py:130-146 | a list gives its questions in order; any other value the loops get through (an empty string or dict) gives none; every other value (a number, a boolean, null, a non-empty string or dict) makes the loops raise |
| Quiz.GenerateQuizQuestions | llm_service.py:83-162 | no chunks gives `[]`; no match, or no decode after comma cleaning, gives the fallback; a decoded non-object raises; otherwise the questions are `NormalizedFrom` the `questions` entry |
| Quiz.MissingQuestionsKeyIsEmpty | llm_service.py:130 | a decoded object without `questions` gives `[]`, not the fallback |
| Concepts.Shorten | llm_service.py:302-303 | at most 53 characters; a name of at most 50 is kept; a longer one becomes its first 50 characters plus `...` |
| Concepts.ConceptName | llm_service.py:298-299 | never empty; `Topic i+1` for a blank chunk; otherwise its words are the chunk's first six words, joined by single spaces with no whitespace at the ends |
| Concepts.FallbackConcept | llm_service.py:301-305 | the keys are exactly main, sub and description; `main == sub`, and both are the shortened concept name, 1 to 53 characters; the description is the fixed lead + `chunk[:100]` + `...` |
| Concepts.FallbackConceptName | llm_service.py:299-303 | a short name is used unchanged; a blank chunk among the first eight is `Topic ` + one digit |
| Concepts.CreateFallbackConcepts | llm_service.py:291-306 | `min(8, len(chunks))` entries, entry `i` built from chunk `i` |
| Concepts.Try | llm_service.py:262-268 | a decode error is not found; found exactly when the value is an object whose `concepts` is truthy and has a length, and then it is that entry; escapes to the outer handler exactly when `.get` fails (the value is not an object) or `len()` fails (`concepts` is a truthy number or boolean); a missing key is not found |
| Concepts.Direct | llm_service.py:261-268 | the first stage on the stripped reply: a decode error is not found; found only with a decoded object's truthy, sized `concepts` entry |
| Concepts.Extracted | llm_service.py:270-280 | the second stage: no `{...}` match is not found; found only when the match decodes to an object whose `concepts` entry is that value, truthy and sized; an escape needs a match that decodes |
| Concepts.ExtractConcepts | llm_service.py:218-289 | no chunks gives `[]`; otherwise the result is truthy and is the direct result, else the extracted result, else the fallback; an escape at either stage, including `len()` of a number or boolean, gives the fallback and skips any later stage |
| Ranking.SelectionSize | document_processor.py:302 | `[-k:]` keeps every position for k = 0, else exactly min(k, n): k when k <= n, all n otherwise |
| Ranking.TopIndices | document_processor.py:302 | distinct valid positions, best first; every position left out scores no higher than any kept; all are kept when k is 0 or at least the count |
| Ranking.PartitionStep | document_processor.py:302 | moving a best-scoring remaining position to the end of the kept ones keeps them best first, distinct and ahead of every remaining position |
| Ranking.SelectedAreAmongTop | document_processor.py:302 | for k ≥ 1 fewer than k positions score strictly higher than a kept one |
| Ranking.UnselectedIsOutranked | document_processor.py:302 | a position left out has at least as many rivals scoring as high as there are kept positions |
| Ranking.SurelyTopIsSelected | document_processor.py:302 | a position with fewer than k rivals scoring as high is always kept, whatever the tie order |
| Ranking.InsertBySimilarity | document_processor.py:317 | insertion adds exactly one entry (multiset) |
| Ranking.SortBySimilarity | document_processor.py:317 | the sort is a permutation |
| Ranking.InsertKeepsSorted | document_processor.py:317 | insertion into a descending list keeps it descending |
| Ranking.SortIsSorted | document_processor.py:317 | the sort is non-increasing by similarity |
| Ranking.SortIsStable | document_processor.py:317 | entries of equal similarity keep their relative order |
| Ranking.SortKeepsDocCount | document_processor.py:317 | every document contributes as many entries after sorting as before |
| Ranking.SortKeepsDistinct | document_processor.py:317 | sorting introduces no duplicates |
| Ranking.DocCountAppend | document_processor.py:306 | per-document counts add up over concatenation |
| CorpusStore.Suffix | document_processor.py:120 | pathlib's suffix: empty, or a dot plus a dot-free tail of the name that is at least one character and shorter than the name |
| CorpusStore.LowerAscii | document_processor.py:120 | lower-cases character by character and keeps the length |
| CorpusStore.FormatOf | document_processor.py:120-131 | a supported format needs a dot in the name |
| CorpusStore.ExtractText | document_processor.py:118-131 | fails exactly for an unsupported lower-cased suffix, naming it; otherwise it is the extractor for that format |
| CorpusStore.FormatOfName | document_processor.py:120 | `stem.ext` is dispatched on the lower-cased last extension |
| CorpusStore.DotFileRejected | document_processor.py:120 | a name such as `.md` has no suffix and is rejected |
| CorpusStore.UpperCaseExtensionAccepted | document_processor.py:120 | any non-empty stem with the extension `MD`, such as `Notes.MD`, is Markdown |
| CorpusStore.LastExtensionDecides | document_processor.py:120 | a stem with a dot of its own, such as `paper.final`, followed by `.pdf` is a PDF |
| CorpusStore.EarlierExtensionIgnored | document_processor.py:120 | a stem with a dot of its own, such as `notes.md`, followed by `.bak` is unsupported |
| CorpusStore.RowsOf | document_processor.py:259-264 | the rows of one document, all carrying its id |
| CorpusStore.RowsOfAppend | document_processor.py:203-207 | appending rows appends each document's rows |
| CorpusStore.OwnRowsAfterInsert | document_processor.py:203-207 | after the insertion loop a new document's rows are exactly the added ones |
| CorpusStore.OtherRowsAfterInsert | document_processor.py:203-207 | the insertion loop leaves every other document's rows as they were |
| CorpusStore.InsertKeepsValid | document_processor.py:195-207 | inserting a document under the counter's id, with a new hash and filename, and then its rows 0..n-1 keeps ids below the counter, every row owned, each document's rows dense and hashes and filenames unique |
| CorpusStore.ListsEachOnceLength | document_processor.py:284-286 | listing every stored document once lists exactly `len(documents)` ids |
| CorpusStore.DocumentStore.constructor | document_processor.py:36-67 | the tables start empty and valid, and ids start at 1 |
| CorpusStore.DocumentStore.ProcessDocument | document_processor.py:143-227 | a known hash answers `already_exists` with the stored id and writes nothing; an unsupported suffix (reported lower-cased), blank text or a filename in use each fail with nothing written, by if-and-only-if; ingestion succeeds exactly when none of the four applies; then one document with id `nextId`, status processed, the content length and `chunk_count` is added, plus rows 0..n-1 in split order; nothing else changes and the store stays valid |
| CorpusStore.DocumentStore.Insert | document_processor.py:195-209 | one INSERT into `documents` and one row per chunk, then the counter moves on; validity is kept |
| CorpusStore.DocumentStore.GetDocumentChunks | document_processor.py:254-274 | the chunks come by ascending index 0..chunk_count-1 with their texts; an unknown id gives `[]` |
| CorpusStore.DocumentStore.SearchDocuments | document_processor.py:276-318 | as `CorpusStore.Search`, over the store's tables: the merged list is the per-document blocks concatenated in `order`, then sorted stably by similarity and cut |
| CorpusStore.Search | document_processor.py:276-318 | the merged list is the blocks one after another, one per document in `order`, each being exactly what `SearchOne` gives for that document; `top_k` 0 gives `[]`; otherwise the stable sort of the merged blocks, which are never cut by the slice; sorted descending; each result is a stored chunk with its document's name, its own text and score, above 0.3 and among its document's `top_k` best; at most `top_k` per document; no chunk twice; every chunk above 0.3 that is surely in its document's top `top_k` is reported |
| CorpusStore.GatherBlocks | document_processor.py:285-314 | the collected list is the concatenation of one block per listed document, in `order`, each what `SearchOne` promises for that document; every collected entry is a hit of a listed document, no chunk appears twice, each document contributes at most `top_k`, and every chunk that must be reported is |
| CorpusStore.SearchOne | document_processor.py:299-312 | one document's block is exactly the results of an argsort-style selection `top` of `min(top_k, n)` indices, best first: one result per selected index scoring above 0.3, in selection order; so its chunks are distinct, at most `top_k`, and include every chunk surely among the best |
| CorpusStore.BlockSizeAllAbove | document_processor.py:302-305 | when every chunk of a document scores above 0.3, its block has exactly `min(top_k, n)` results, whatever order numpy gives tied scores |
| CorpusStore.CollectHits | document_processor.py:304-312 | the loop over the selected indices yields, in their order, one result per index scoring above 0.3, carrying the document's id and name and the chunk's index, text and score |
| CorpusStore.SelectedIsHit | document_processor.py:304-312 | a kept chunk above 0.3 makes a valid result |
| CorpusStore.UploadTwice | document_processor.py:154-164 | uploading the same content twice, under any filenames, answers the second time with the first upload's id |

## Left out

- HTTP to the language-model backend is not modelled: the reply is an arbitrary string, including its `Error: ...` replies. Model listing and the connection checks are left out too.
- The prompt text, the system prompts and `generate_rag_response` are left out. They are string templates with no behaviour to state.
- Logging (`print`) and the debug helper `test_quiz_generation` are left out.
- `json.loads` is a parameter, not a grammar. JSON numbers are integers: floats do not take part in any property here.
- Regex `\s` and Python `str.isspace` are modelled as the same character set, the one `Text.IsSpace` lists.
- Quiz.ChoiceIndex: `.upper()` is modelled on ASCII letters only. No other character upper-cases to exactly one of `A`–`D`, so the mapping is the same.
- `Quiz.QuestionItems`: a `questions` entry that is an empty string or an empty dict gives an empty quiz. The source returns that value itself, which is empty and falsy in the same way.
- `Quiz.StrippedOptions`: options given as a JSON object are treated as raising. The source would iterate the object's keys in their order, and the model's map has no order.
- The kind of exception that escapes `generate_quiz_questions` (`KeyError`, `TypeError`, `AttributeError`) is not distinguished: all of them are `Raised`.
- Disk is not modelled: saving the upload, the `.pkl` vector files and `os.path.exists`. Search takes its chunk texts from the `chunks` table; the source reads them from the document's `.pkl` file.
  - These agree unless a later upload overwrote that file. That happens when two filenames share a stem, such as `a.txt` and `a.md`. It also happens when a duplicate-filename upload writes its vectors before its INSERT fails.
  - An upload named `<stem>.pkl` also overwrites a stored document's vector file. `save_file` (document_processor.py:167, defined at :133-141) writes the upload there before `extract_text` rejects the `.pkl` suffix. The `pickle.load` in `search_documents` (:296) has no handler of its own, so a later search can then raise.
  - An upload that fails after `save_file` leaves an orphan file on disk.
- The change to the `.pkl` file on a failed upload is not represented: `CorpusStore.DocumentStore.ProcessDocument` promises no change only for the two tables.
- SHA-256, PDF/DOCX/Markdown extraction, the text splitter and the sentence embeddings are library calls, so they are parameters. Similarities are reals, and the float dot product is not computed.
- Other exceptions inside `process_document`, raised by the libraries and caught by its last handler, are not modelled.
- Filenames are taken to be plain base names, so `upload_dir / filename` is not modelled.
- `LowerAscii` lower-cases only ASCII letters. No other character lower-cases to a letter of `pdf`, `docx`, `txt` or `md`, so the dispatch is the same. The suffix reported in the UnsupportedFormat message keeps non-ASCII capitals, where `suffix.lower()` lowers them: for `x.ÄB` the model reports `.Äb` and the source `.äb`.
- `get_documents` orders by upload time, with ties at one-second precision; `order` is any listing of the stored documents. The upload dates are not modelled, nor the column default `uploaded`: the INSERT always writes `processed`, so no stored row carries the default.
- `Ranking.TopIndices` fixes no tie order, because numpy's default `argsort` is not stable. Its contract allows every tie order.
- `top_k` is a natural number: a negative `top_k` is left out.
- Default arguments are not modelled: `mastery_level=1` and `num_questions=3` of `generate_quiz_questions`, and `top_k=5` of `search_documents`. The operations take every argument explicitly.
- `CorpusStore.SearchOne`: the selection `top` is any one numpy's `argsort` could return. Which chunks tied at the `top_k` boundary are selected, and the order among tied chunks, are left free. Their number is not: it is always `min(top_k, n)`.
- `CorpusStore.Search` pins each block to such a selection. Among chunks that tie at a document's `top_k` boundary, which are reported is therefore left free, because it depends on numpy.
- Mastery-level transitions and document deletion are not part of these files.
