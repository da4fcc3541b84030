# Retrieval, judging and prompt building of a small RAG pipeline, in Dafny

This project models the decision logic of a retrieval-augmented generation
pipeline written in Python:

- **Re-ranking in the retriever** (`rag/retriever.py`). The vector store's
  candidate documents go to a cross-encoder as a corpus of payloads, in list
  order. Each score it returns is written in place into the `rank` of the
  document at its `corpus_id`. The documents then come back in a new list,
  stably sorted by `rank`, highest first. The retriever remembers the store's
  list, in store order, as `last_documents`. Clearing that memory empties it.
- **The judge** (`rag/judge.py`). It refuses an empty context, builds a
  bulleted context section and a fixed prompt, and records that prompt. It
  then reads a verdict (TRUE, FALSE or MAYBE) from the model's reply,
  stripped and lower-cased. The reply is searched for "true" and "false" in
  a fixed priority order.
- **The generator** (`rag/generator.py`). It records a prompt made of a
  boilerplate line, the newline-joined payloads and the query. It sends
  exactly that prompt to the model, and it can return the recorded prompt.

The collaborators are parameters of the calls. The cross-encoder is a
function from (query, corpus) to a list of `(corpus_id, score)` entries. The
language model is a function from prompt to reply. The vector store's answer
is passed in as a list of documents. Documents are objects (`Schema.Document`),
because the retriever mutates them and several lists share them. Scores are
`real`.

Files: `schema.dfy` (the document record), `strings.dfy` (the Python string
operations used: `join`, `strip`, `lower`, `in`; it also defines `split`, which
the program never calls, only to state that the generator's documents section
can be read back into the payload list), `retriever.dfy`, `judge.dfy` and
`generator.dfy`.

The stable descending sort is specified by `Retrieval.Before`. An index goes
first when its rank is larger, or when the ranks tie and it came first in the
input. `Retrieval.RankOrderSpec` proves that the sort's index order is the
one and only permutation ordered this way.

## Model

| member | source | states |
|---|---|---|
| `Schema.Document.constructor` | schema/document.py:9-13 | a new document carries the given id, metadata and payload, and rank 0.0 |
| `Schema.Payloads` | rag/retriever.py:84 | `[doc.data for doc in documents]`: the payloads in list order (the same comprehension is at rag/judge.py:102 and rag/generator.py:48); the retriever, judge and generator contracts state what they send through it |
| `Retrieval.ApplyScores` | rag/retriever.py:86-87 | the ranks after the write-back loop, entry by entry; the length never changes, and `ApplyScoresUnnamed`, `ApplyScoresLastWins` and `ApplyScoresDistinct` say which score each document ends with |
| `Retrieval.ApplyScoresUnnamed` | rag/retriever.py:86-87 | a document that no ranker entry names keeps its previous rank |
| `Retrieval.ApplyScoresLastWins` | rag/retriever.py:86-87 | a document's new rank is the score of the last entry naming its index |
| `Retrieval.ApplyScoresDistinct` | rag/retriever.py:86-87 | when entries name distinct indices, every entry's score ends up on the document at its corpus id |
| `Retrieval.SortPrefixMembers` | rag/retriever.py:88 | the sort of the first n indices lists exactly the indices below n |
| `Retrieval.SortPrefixOrdered` | rag/retriever.py:88 | the insertion sort keeps indices ordered by descending rank, ties by input position |
| `Retrieval.RankOrder` | rag/retriever.py:88 | the index order of `sorted(..., key=rank, reverse=True)`: one index per document, each in range; `RankOrderSpec` characterises it |
| `Retrieval.StablyOrderedUnique` | rag/retriever.py:88 | two stably descending lists of the same indices are equal |
| `Retrieval.RankOrderSpec` | rag/retriever.py:88 | the sort order is a permutation of the indices, stably descending by rank, and is the only such permutation |
| `Retrieval.Gather` | rag/retriever.py:88 | the new list that `sorted` returns: the documents at the listed indices, one per index; `GatherRankOrder` proves it is a permutation of the input |
| `Retrieval.GatherRankOrder` | rag/retriever.py:88 | listing documents in the sort order gives a permutation (same multiset) of the input list |
| `Retrieval.Retriever.constructor` | rag/retriever.py:48 | a new retriever has no last documents |
| `Retrieval.Retriever.ReorderDocuments` | rag/retriever.py:84-88 | the ranker gets the payloads in input order; ranks become the written-back scores; id, metadata and payload do not change; the result is a new list that is a permutation of the input, non-increasing by rank, with ties in input order |
| `Retrieval.Retriever.Retrieve` | rag/retriever.py:65-67 | last documents become the store's list in store order (the same objects, whose ranks were just overwritten), and the result is that list re-ranked |
| `Retrieval.Retriever.ClearLastDocuments` | rag/retriever.py:90-98 | last documents become empty, whatever they were, so a second call changes nothing |
| `Judging.JudgeResult.IsDefinitive` | rag/judge.py:50-57 | a verdict is definitive exactly when it is not MAYBE |
| `Judging.ContextSection` | rag/judge.py:102-103 | the context section `"\n* " + "\n* ".join(...)` over the payloads; `ContextSectionBulleted` characterises it |
| `Judging.Prompt` | rag/judge.py:13-35 | the judge or explain template filled with the context section and the answer (the `format` call at rag/judge.py:104); the template texts are `JudgeHeader`, `ExplainHeader` and `AnswerHeader` |
| `Judging.Normalize` | rag/judge.py:129 | the reply stripped, then lower-cased; equal to lower-casing first and stripping after |
| `Judging.Classify` | rag/judge.py:130-137 | the if/elif chain: TRUE iff the text has "true" and not "false", FALSE iff it has "false" and not "true", MAYBE iff it has both or neither |
| `Judging.Verdict` | rag/judge.py:129-137 | the whole step of `judge` from raw reply to verdict: normalise, then classify; `VerdictOfReply`, `VerdictIgnoresCase` and `DefinitiveVerdict` characterise it |
| `Judging.ContextSectionBulleted` | rag/judge.py:102-103 | for a non-empty list, the context section is one bullet line per payload, in input order |
| `Judging.VerdictOfReply` | rag/judge.py:129-137 | the verdict is TRUE iff the lower-cased reply has "true" and not "false", FALSE iff it has "false" and not "true", MAYBE iff it has both or neither; stripping never changes it |
| `Judging.VerdictIgnoresCase` | rag/judge.py:129-137 | replies equal up to ASCII letter case get the same verdict |
| `Judging.DefinitiveVerdict` | rag/judge.py:129-137 | the verdict is definitive iff the reply mentions exactly one of "true" and "false" |
| `Judging.Judge.constructor` | rag/judge.py:82-83 | a new judge has an empty last prompt and last result |
| `Judging.Judge.Ask` | rag/judge.py:100-106 | an empty context fails before the last prompt changes; otherwise the last prompt is the mode's template filled with the bulleted context and the answer, and the reply is the model's reply to exactly that prompt |
| `Judging.Judge.JudgeAnswer` | rag/judge.py:128-137 | on a non-empty context the last result is the stripped, lower-cased reply and the verdict is its classification; an empty context fails and changes nothing |
| `Judging.Judge.Explain` | rag/judge.py:156-158 | on a non-empty context the last result and the return value are the stripped reply; an empty context fails and changes nothing |
| `Generation.GeneratorPrompt` | rag/generator.py:47-49 | the generator's prompt over the query and the payloads; `GeneratorPromptShape` and `GeneratorPromptPayloads` characterise it |
| `Generation.GeneratorPromptShape` | rag/generator.py:47-49 | the prompt is the boilerplate and a blank line, then exactly the newline-joined payloads, then "\n\nQuery: " and the query; with no documents the middle is empty |
| `Generation.GeneratorPromptPayloads` | rag/generator.py:48 | for single-line payloads, splitting the documents section at line breaks gives back the payload list in input order |
| `Generation.Generator.constructor` | rag/generator.py:29 | a new generator's last prompt is "" |
| `Generation.Generator.Generate` | rag/generator.py:47-51 | the last prompt becomes the generator prompt for the query and the payloads, and the answer is the model's answer to exactly that prompt; documents are not modified |
| `Generation.Generator.GetLastPrompt` | rag/generator.py:53-60 | returns the recorded last prompt |
| `Strings.Join` | rag/generator.py:48 | `sep.join(xs)`: the items in order with `sep` between neighbours; `SplitJoin` reads a join back |
| `Strings.SplitJoin` | rag/generator.py:48 | splitting a join of separator-free items returns the items |
| `Strings.TrimLeftSpec` | rag/judge.py:129 | the result is a suffix, everything dropped is whitespace, and it does not start with whitespace |
| `Strings.TrimRightSpec` | rag/judge.py:129 | the result is a prefix, everything dropped is whitespace, and it does not end with whitespace |
| `Strings.Strip` | rag/judge.py:129 | `s.strip()`, trimming at the left and then at the right; `StripSlice` and `StripIdempotent` characterise it |
| `Strings.StripSlice` | rag/judge.py:129 | strip keeps one contiguous middle part and removes only whitespace around it |
| `Strings.StripIdempotent` | rag/judge.py:157 | stripping twice equals stripping once |
| `Strings.Lower` | rag/judge.py:129 | `s.lower()` on ASCII letters: same length, each character folded on its own |
| `Strings.LowerStrip` | rag/judge.py:129 | stripping and lower-casing commute |
| `Strings.Contains` | rag/judge.py:130-136 | Python's `p in s`, scanning from the left; `ContainsIff` characterises it |
| `Strings.ContainsIff` | rag/judge.py:130-136 | the substring test holds iff the pattern occurs at some index |
| `Strings.ContainsStrip` | rag/judge.py:129-136 | a pattern with no whitespace at either end occurs in the stripped text iff it occurs in the original |

## Left out

- Deduplication, score thresholds, the delta-versus-runner-up gate and the "no results" and "insufficient relevance" sentinel documents are not modelled. No code in `rag/` implements them; the model follows the code.
- An empty document list still goes to the cross-encoder (rag/retriever.py:85); it is not short-circuited. The model does the same. The ranker is a function, so that call has no effect there.
- The embedding model, the ChromaDB vector store, the cross-encoder and the OpenAI client are outside the model. They appear only as call parameters or as the list passed in. Model names, the "gpt-4o-mini" argument, client set-up, logging, the API-key checks and network errors are not modelled.
- Exceptions raised by the language model, and the client's "No response from OpenAI" fallback, are not modelled. The model is a total function from prompt to reply.
- Retrieval.Retriever.ReorderDocuments: requires every corpus id to be an index of the list, which is what the cross-encoder returns. It also requires the documents to be distinct objects, which they are because the vector store builds new ones for each query. Python's negative indices and the IndexError for an out-of-range id are not modelled.
- Retrieval.Retriever.Retrieve: `n_results` only goes to the vector store, so the store's answer is passed in as `found` and `n_results` is not a parameter.
- Scores are `real`. Floating-point rounding and NaN, which would break the sort's total order, are not modelled.
- Strings.Lower: folds only ASCII `A`-`Z`; Python's `lower()` also folds other Unicode letters. This cannot change the verdict, because no other character lower-cases into a letter of "true" or "false". It can change the stored last result for non-ASCII replies.
- `Judge.judge_rerank` is an empty placeholder (rag/judge.py:160-161) and has no behaviour to model.
- Several retrievers or judges used at once by concurrent callers, and the unsynchronised sharing of `last_documents`, are not modelled.
