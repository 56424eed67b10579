# Section generation service: retrieval, composition and history

This project models the core of a small backend that drafts a report section
for a company. A request names a company, a section type and a free-text
query. The service:

1. **Retrieves** candidate documents:
   - It keeps the documents that match both the company and the section type.
   - If there are none, it falls back to the company's documents.
   - If there are still none, it uses every document.
   - It scores each candidate by word overlap with the query, meaning the
     number of distinct lowercased whitespace-separated words the two texts
     share.
   - It sorts the candidates by score, highest first. The sort is stable.
   - It keeps the first `top_k`.
2. **Composes** a section:
   - With no documents, the result is a fixed message.
   - Otherwise it is an introduction giving the document count, then one
     numbered block per document (a header line with the document's
     identifier, then its text). Blank lines separate the blocks.
3. **Records** the request in an in-memory, append-only history. The history
   can be queried by company.

Modules:

- `Domain` (`domain.dfy`): the `Document` and `HistoryEntry` records.
- `Tokens` (`tokens.dfy`): `lower()`, `split()` and the word-overlap score.
- `Retrieval` (`retrieval.dfy`): filtering, the fallbacks, scoring, the stable
  sort, Python's `[:top_k]` slice, and the whole `retrieve_documents`
  pipeline.
- `Generation` (`generation.dfy`): decimal rendering of counts,
  `"\n\n".join`, and `generate_section`.
- `History` (`history.dfy`): the history store as a class `Ledger` with one
  `seq` field, which `AddEntry` reassigns.
- `Sections` (`sections.dfy`): the two request handlers without the HTTP
  layer.

The pure parts of the source (the score, the filters, the composed text) are
functions. The source's loops (the scoring loop, the enumerate loop that
builds the blocks) are methods with loop invariants, and each is proved equal
to the function that specifies it. The module-level list that `add_entry`
appends to is a class field.

Decisions where the code says more than its description:

- The documents a request returns are not guaranteed to be free of
  duplicates. If the input holds the same document twice, both copies can
  be returned. The model therefore proves the multiset bound
  `multiset(result) <= multiset(input)` and not distinctness.
- A negative `top_k` is not rejected. Python's `xs[:k]` then drops `-k`
  elements from the end, and `Retrieval.Slice` models exactly that.
- `retrieve_documents` on an empty document list returns an empty list. The
  request handler answers 503 before retrieval is reached.

## Model

| member | source | states |
|---|---|---|
| Tokens.Lower | app/services/retrieval_service.py:21-22 | lowercasing keeps the length, maps each A-Z to its own lowercase letter (code point + 32) and leaves every other character, whitespace included, unchanged |
| Tokens.LowerIdempotent | app/services/retrieval_service.py:21-22 | lowercasing an already lowercased text changes nothing |
| Tokens.WordSetIgnoresCase | app/services/retrieval_service.py:21-22 | a text and its lowercased form have the same word set, so "Beta" and "beta" are one word |
| Tokens.Words | app/services/retrieval_service.py:21-22 | every word `split()` yields is non-empty and contains no whitespace |
| Tokens.WordsOfWord | app/services/retrieval_service.py:21-22 | a non-empty whitespace-free text splits into exactly itself |
| Tokens.WordsAfterSpace | app/services/retrieval_service.py:21-22 | leading whitespace of any kind and length is skipped: it yields no word and does not change the words after it |
| Tokens.WordsOfWordThenSpace | app/services/retrieval_service.py:21-22 | a word followed by a non-empty run of any whitespace characters splits off as one word, and the rest splits on its own; with the two rows above this fixes the split of every text |
| Tokens.WordsOfThree | app/services/retrieval_service.py:21-22 | three whitespace-free words separated by runs of any whitespace split into exactly those three words, in order |
| Tokens.WordsOfMixedWhitespace | app/services/retrieval_service.py:21-22 | tabs, newlines and spaces all separate words: `"a\tb\n c"` splits into `a`, `b`, `c` |
| Tokens.WordsOfUnwords | app/services/retrieval_service.py:21-22 | splitting a single-space join of non-empty whitespace-free words gives back exactly those words, in order |
| Tokens.WordsKeepText | app/services/retrieval_service.py:21-22 | the concatenated words are the text with all whitespace removed, in original order, so splitting loses nothing but whitespace |
| Tokens.WordsEmpty | app/services/retrieval_service.py:21-22 | a text yields no words if and only if it is empty or all whitespace |
| Tokens.WordSetOfOne | app/services/retrieval_service.py:21 | a text that lowercases to one word has exactly that word as its word set |
| Tokens.WordSetOfTwo | app/services/retrieval_service.py:21 | a text that lowercases to two words joined by a space has exactly those two words as its word set |
| Tokens.OverlapBounded | app/services/retrieval_service.py:9-23 | the overlap score is at most the number of distinct words of each text |
| Tokens.OverlapSymmetric | app/services/retrieval_service.py:9-23 | the score does not depend on argument order |
| Tokens.OverlapWithBlank | app/services/retrieval_service.py:9-23 | a text scores 0 against an empty or all-whitespace text |
| Tokens.OverlapIgnoresCase | app/services/retrieval_service.py:9-23 | lowercasing either text beforehand does not change the score: the score ignores ASCII case |
| Tokens.OverlapSelf | app/services/retrieval_service.py:9-23 | repeated words count once: a text's score against itself is its number of distinct words |
| Retrieval.FilterExact | app/services/retrieval_service.py:53-56 | the exact filter keeps every copy of each document that matches both company and section type and no other document, in input order (a subsequence of the input) |
| Retrieval.FilterCompany | app/services/retrieval_service.py:61 | the company filter keeps every copy of each document with the company and no other document, in input order (a subsequence of the input) |
| Retrieval.CandidatesFallback | app/services/retrieval_service.py:53-65 | if any document matches both keys, the candidates are the exact filter's result; otherwise, if any has the company, they are the company filter's result; otherwise they are the whole input; in every case a subsequence of the input, so input order is kept |
| Retrieval.ScoreCandidates | app/services/retrieval_service.py:69-72 | the scoring loop pairs each candidate, in order, with its overlap score against the query |
| Retrieval.SortPermutes | app/services/retrieval_service.py:75 | the sort is a permutation of the scored pairs |
| Retrieval.SortDescending | app/services/retrieval_service.py:75 | after the sort, scores never increase |
| Retrieval.SortStable | app/services/retrieval_service.py:75 | the sort is stable: the pairs of each score keep their relative order |
| Retrieval.SortAllEqual | app/services/retrieval_service.py:75 | when all scores are equal, the sort leaves the list unchanged |
| Retrieval.Slice | app/services/retrieval_service.py:78 | `xs[:k]` is a prefix of `xs`; for `k >= 0` its length is `min(k, len(xs))`; for `k < 0` its length is `len(xs) + k`, or 0 when that is negative |
| Retrieval.RetrieveDocuments | app/services/retrieval_service.py:26-80 | the step-by-step retrieval (filter, fallbacks, scoring loop, sort, slice) returns the result of the retrieval pipeline function |
| Retrieval.RankedPermutes | app/services/retrieval_service.py:69-75 | the ranked list, before truncation, is a permutation of the candidates |
| Retrieval.RetrieveIsPrefix | app/services/retrieval_service.py:75-78 | the result is a prefix of the ranked candidates |
| Retrieval.RetrieveLength | app/services/retrieval_service.py:78 | the result has `min(top_k, number of candidates)` documents for `top_k >= 0`, Python's negative-slice count for `top_k < 0`, and none when there are no documents |
| Retrieval.RetrieveFromInput | app/services/retrieval_service.py:53-78 | every returned document is a candidate and an input document, and none is returned more often than it occurs in the input |
| Retrieval.RetrieveMembers | app/services/retrieval_service.py:53-78 | every returned document is among the candidates |
| Retrieval.RetrieveExactMatch | app/services/retrieval_service.py:53-60 | when some document matches both keys, every returned document matches both keys |
| Retrieval.RetrieveCompanyFallback | app/services/retrieval_service.py:60-61 | when nothing matches both keys but some document has the company, every returned document has that company |
| Retrieval.DocsOfSlice | app/services/retrieval_service.py:78 | dropping the scores commutes with the slice |
| Retrieval.RetrieveDescending | app/services/retrieval_service.py:75-78 | along the result, overlap scores against the query never increase |
| Retrieval.RankStable | app/services/retrieval_service.py:69-78 | for every score, the ranked-and-truncated documents with that score are the first ones with that score among the candidates, in candidate order |
| Retrieval.RetrieveStable | app/services/retrieval_service.py:53-78 | the same stability, stated for the whole retrieval from the input documents |
| Retrieval.RetrieveBlankQuery | app/services/retrieval_service.py:69-78 | with an empty or all-whitespace query, the result is the first `top_k` candidates in input order |
| Retrieval.TiedScoresKeepInputOrder | app/services/retrieval_service.py:26-80 | two matching documents that each share one word with the query are both returned, in input order |
| Generation.NatToString | app/services/generation_service.py:27 | the rendered count is a non-empty string of decimal digits with no leading zero |
| Generation.NatToStringRoundTrip | app/services/generation_service.py:27 | the rendered numeral reads back as the number |
| Generation.JoinLength | app/services/generation_service.py:35 | a join of n parts is exactly the parts plus n - 1 separators |
| Generation.JoinPart | app/services/generation_service.py:35 | each part stands at its offset in the join, and a separator follows every part but the last |
| Generation.JoinEndsWithLast | app/services/generation_service.py:35 | a join ends with its last part: no separator trails it |
| Generation.GenerateSection | app/services/generation_service.py:23-37 | the section is never empty; with no documents it is the fixed message; otherwise it starts with the introduction giving the document count |
| Generation.ComposeSection | app/services/generation_service.py:9-37 | the enumerate loop builds the section the composition function specifies |
| Generation.SectionIgnoresUserText | app/services/generation_service.py:9-37 | the section depends only on the documents; the user's text is not used |
| Generation.SectionBlockAt | app/services/generation_service.py:27-35 | a non-empty section is the introduction, the blocks and one blank line between consecutive blocks; block i, numbered i + 1 and carrying that document's identifier and text, stands at its offset and is followed by a blank line unless it is the last |
| Generation.SectionEndsWithLastText | app/services/generation_service.py:31-35 | a non-empty section ends with the last document's text |
| History.EntriesForMembers | app/services/history_service.py:32 | the company query returns exactly the entries with that company |
| History.EntriesForInOrder | app/services/history_service.py:32 | the company query's result is a subsequence of the history, in insertion order |
| History.EntriesForCount | app/services/history_service.py:32 | the company query returns as many entries as the history has for that company |
| History.EntriesForAppend | app/services/history_service.py:12-32 | after an append, the query for the appended entry's company gains exactly that entry at its end, and every other company's query is unchanged |
| History.EntriesForNone | app/services/history_service.py:32 | a company with no entries gets an empty result |
| History.Ledger.constructor | app/services/history_service.py:9 | the history starts empty |
| History.Ledger.AddEntry | app/services/history_service.py:12-19 | an append adds the entry at the end and leaves earlier entries as they were |
| History.Ledger.GetByCompanyId | app/services/history_service.py:22-32 | the result holds only that company's entries, all of them, in insertion order |
| History.Ledger.GetAll | app/services/history_service.py:35-42 | the result is the whole history, in insertion order |
| History.TwoCompanies | app/services/history_service.py:12-32 | starting from an empty history, after appending one company's entries and then another's, each company's query returns exactly its own entries in call order |
| Sections.GenerateSection | app/routes/sections_controller.py:33-80 | with no documents loaded: error 503 with the fixed detail and no history change; otherwise the response carries the composed section of the retrieved documents and their identifiers in ranked order, and exactly one history entry with the same request id, timestamp, keys and sources is appended |
| Sections.GetHistory | app/routes/sections_controller.py:84-106 | item i of the history response carries the request id, timestamp, company, section type and sources of the company's i-th history entry in insertion order; there is one item per entry of that company |
| Sections.SourcesBound | app/routes/sections_controller.py:42-61 | the recorded sources number at most the candidates, and at most `top_k` when `top_k >= 0`; each is the identifier of an input document |

## Left out

- Tokens.Lower: lowercases ASCII letters only. Python's `str.lower()` also folds non-ASCII letters, and some of those change length (for example 'İ'). Whitespace splitting uses Python's full set of whitespace code points.
- Retrieval.SortStable: the source sorts the list of pairs in place with Timsort. The model sorts a value with a stable insertion sort. Both are stable and sort by descending score, so the order is the same. In-place update and aliasing of the list are not modelled.
- Retrieval.RetrieveDocuments: when both fallbacks fail, the source aliases `filtered` to the caller's list. The model uses the value, since the list is only read.
- History.Ledger.GetAll: the source returns the live module-level list, so a caller's later mutation would change the history. The model returns the value.
- Loading documents from the JSON data file (`app/services/data_service.py`), environment variables and file I/O are not modelled. The document list is a parameter of `Sections.GenerateSection`.
- The `TOP_K` environment variable and its `int()` parse (sections_controller.py:43) are not modelled. `top_k` is a parameter, so a malformed value (a 500 error in the source) is not modelled.
- `uuid4()` and `datetime.utcnow()` are not modelled. The request id and the timestamp are parameters.
- Request validation (the 422 response), the FastAPI routing and the root endpoint (`app/main.py`, `app/models/dto.py`) are not modelled. They are HTTP plumbing outside the core.
- The default `top_k = 3` of `retrieve_documents` (retrieval_service.py:31) is not modelled: `Retrieval.Retrieve` always takes `topK`, as its only caller always passes one.
- Concurrent requests and the lack of locking around the shared history are not modelled. Each handler runs to completion.
- The optional `Document` fields (tags, source type, source URL, creation time) are carried but never read, as in the source.
