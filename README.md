# Reranking stage of Pathway's LLM xpack, modelled in Dafny

This project models the two selection and validation rules of the reranking
stage of Pathway's LLM xpack (`pathway.xpacks.llm.rerankers`), as their tests
in `python/pathway/xpacks/llm/tests/test_rerankers.py` assert them:

- **`rerank_topk_filter(docs, scores, k)`** (`topk_filter.dfy`, module
  `TopKFilter`). Each position is paired with its score as an
  `Entry(index, score)`. The entries go through a stable descending insertion
  sort, the first `k` are kept, and the documents and scores at the kept
  positions are returned as a pair of sequences. The reference definition is
  `IsStableTopK`, stated on positions: `min(k, n)` positions, each
  outranking the ones after it, and every left-out position ranked below every
  kept one. "Outranks" means a higher score, or an equal score and an earlier
  position. The filter meets it (`TopKIndicesMeetSpec`), and no other
  selection does (`StableTopKIsUnique`).
- **Score parsing and validation in `LLMReranker`** (`score_parsing.dfy`,
  module `ScoreParsing`; `llm_reranker.dfy`, module `LLMReranking`). The
  tests fix the outcome of four replies only: `"1"` and `"5.0"` are accepted,
  `"6"` and `"text"` are refused. How any other reply is read is an
  assumption of this model, because the rerankers module is not shown: it
  assumes the module converts the reply with Python's `float()`, and models
  the decimal part of what `float()` accepts. Surrounding whitespace is
  ignored. Then come an optional sign, digits, an optional point and digits,
  with at least one digit in all (so `"7."` and `".5"` are numbers). The
  number must lie on a closed rating scale `[lowest, highest]`,
  which is a parameter. A reply that is not a number, or is off the scale,
  fails the computation. A `Result` is returned instead, and no default rank
  is ever substituted. `ParseLiteral` and `Render` (literal to text) are
  proved inverse in both directions.
- `reranker_test_vectors.dfy` (module `RerankerTestVectors`) proves the test
  vectors. The top-3 of `[1, 2.0, 5.5, -10.333, 2, 9.5, 5.555, 4.3, 2.8, 9.5]`
  is docs 5, 9, 6 with scores 9.5, 9.5, 5.555. Replies `"1"` and `"5.0"` give
  ranks 1.0 and 5.0. `"6"` and `"text"` are refused. The scale in these
  lemmas is `[1, 5]`.

Scores are Dafny `real`s, so `5.555` and `-10.333` are exact. The scoring
model is a parameter `scorer: (string, string) -> string`, applied to the
row's (doc, query). `Reranker(scorer, scale)` is the per-row function that
`LLMReranker(llm)` applies. `SelectColumn` stands for selecting such a column
and computing the table: one value per row, or a failure of the whole
computation. The implementation module `pathway/xpacks/llm/rerankers.py`
is not part of this model. The top-k rule and the four replies are the
behaviour its tests assert. The `float()` reading of other replies is the
assumption described above. The scale bounds are parameters because the tests
show only that 1 and 5.0 are accepted and 6 is refused.

## Model

| member | source | states |
|---|---|---|
| TopKFilter.RerankTopKFilter | python/pathway/xpacks/llm/tests/test_rerankers.py:73-81 | docs and scores come back with equal length, min(k, n), where n is the number of (doc, score) pairs (3 of 10 for k = 3) |
| TopKFilter.SortDescending | python/pathway/xpacks/llm/tests/test_rerankers.py:73 | the sort used by the filter returns a permutation of its input (same length, same multiset) |
| TopKFilter.SortIsStablyDescending | python/pathway/xpacks/llm/tests/test_rerankers.py:69-81 | on entries in input order, the sort's output is in descending score order, and equal scores keep their input order |
| TopKFilter.TopKIndices | python/pathway/xpacks/llm/tests/test_rerankers.py:73-81 | the kept positions: min(k, n) of them, all below n; TopKIndicesMeetSpec and StableTopKIsUnique fix them as the unique stable top-k selection |
| TopKFilter.TopKIndicesMeetSpec | python/pathway/xpacks/llm/tests/test_rerankers.py:69-81 | the kept positions are a stable top-k selection (IsStableTopK) |
| TopKFilter.StableTopKIsUnique | python/pathway/xpacks/llm/tests/test_rerankers.py:69-81 | any two selections meeting IsStableTopK are equal, so the expected output is fully determined by the rule |
| TopKFilter.RerankTopKFilterSelects | python/pathway/xpacks/llm/tests/test_rerankers.py:69-81 | each returned doc is the doc at a kept position, and each is paired with that same position's score |
| TopKFilter.RerankTopKFilterOrder | python/pathway/xpacks/llm/tests/test_rerankers.py:69-81 | returned scores never increase; equal returned scores keep their input order (doc 5 before doc 9) |
| TopKFilter.RerankTopKFilterKeepsHighest | python/pathway/xpacks/llm/tests/test_rerankers.py:69-81 | every left-out score is at most every returned score; a left-out score equal to a kept one comes later in the input |
| ScoreParsing.ParseLiteral | python/pathway/xpacks/llm/tests/test_rerankers.py:33-56 | whatever is accepted is a well-formed literal whose writing is exactly the parsed text |
| ScoreParsing.ParseRender | python/pathway/xpacks/llm/tests/test_rerankers.py:33-44 | every well-formed literal is parsed back as itself; the tests back only "1" and "5.0", and other literals rest on the assumed `float()` reading |
| ScoreParsing.ParseNumberComplete | python/pathway/xpacks/llm/tests/test_rerankers.py:33-44 | a literal padded with whitespace parses to the literal's value; the tests back only the unpadded "1" and "5.0", and padding and other literals rest on the assumed `float()` reading |
| ScoreParsing.ParseNumber | python/pathway/xpacks/llm/tests/test_rerankers.py:33-56 | reads the reply as a number; its meaning is fixed by ParseNumberSound and ParseNumberComplete (a reply parses to v exactly when it is a whitespace-padded literal of value v) |
| ScoreParsing.Strip | python/pathway/xpacks/llm/tests/test_rerankers.py:33-56 | what remains starts and ends with a non-space; StripPadding and StripSplits fix it as removing exactly the whitespace padding (an assumption from `float()`, not exercised by the tests) |
| ScoreParsing.StripSplits | python/pathway/xpacks/llm/tests/test_rerankers.py:33-56 | every reply is its stripped part with whitespace padding on both sides, so ParseNumberSound speaks of the reply itself |
| ScoreParsing.ParseNumberSound | python/pathway/xpacks/llm/tests/test_rerankers.py:15-18 | a parsed number is the value of the literal that the stripped reply spells |
| ScoreParsing.NonNumeralIsNotANumber | python/pathway/xpacks/llm/tests/test_rerankers.py:52-56 | a reply with a character that is neither whitespace nor a numeral character is not a number |
| LLMReranking.ScoreReply | python/pathway/xpacks/llm/tests/test_rerankers.py:9-30 | a reply is accepted exactly when it parses to a number on the scale, and then its rank is that number; a non-number is refused as NotANumber |
| LLMReranking.Rank | python/pathway/xpacks/llm/tests/test_rerankers.py:13-15 | the rank of one row is the validated reply of the scorer for (doc, query); its meaning is fixed by ScoreReply's contract and TestRowRanking |
| LLMReranking.Reranker | python/pathway/xpacks/llm/tests/test_rerankers.py:13-15 | `LLMReranker(llm)` as the function applied to each row by `reranker(input.doc, input.query)`; SelectColumn and TestRowRanking fix the table it produces |
| LLMReranking.SelectColumn | python/pathway/xpacks/llm/tests/test_rerankers.py:9-30 | applying the reranker to the table gives one rank per (doc, query) row, each that row's validated reply; the computation fails exactly when some row's reply is refused, with that row's error |
| LLMReranking.ScoreOfLiteral | python/pathway/xpacks/llm/tests/test_rerankers.py:33-50 | a numeric reply is ranked by its value when on the scale, and refused as OutOfRange with that value otherwise |
| LLMReranking.AcceptedRankIsReplyValue | python/pathway/xpacks/llm/tests/test_rerankers.py:22-30 | an accepted rank lies on the scale and is the value the reply spells, never a substituted default |
| LLMReranking.NonNumericReplyRefused | python/pathway/xpacks/llm/tests/test_rerankers.py:52-56 | a reply with a non-numeral, non-space character is refused as not a number, whatever the scale |
| RerankerTestVectors.TestSelectionIsStableTop3 | python/pathway/xpacks/llm/tests/test_rerankers.py:69-75 | positions 5, 9, 6 form a stable top-3 of the test scores |
| RerankerTestVectors.TopKTestVector | python/pathway/xpacks/llm/tests/test_rerankers.py:59-83 | the filter with k = 3 returns docs 5, 9, 6 with scores 9.5, 9.5, 5.555 |
| RerankerTestVectors.TestRowRanking | python/pathway/xpacks/llm/tests/test_rerankers.py:9-19 | the one-row test table (doc "bar", query "foo") gets exactly the validated reply of the scorer for that row, or fails with its error |
| RerankerTestVectors.ReplyOneRanksOne | python/pathway/xpacks/llm/tests/test_rerankers.py:33-38 | reply "1" ranks the (foo, bar) row 1.0 on the scale [1, 5] |
| RerankerTestVectors.ReplyFivePointZeroRanksFive | python/pathway/xpacks/llm/tests/test_rerankers.py:40-44 | reply "5.0" ranks the row 5.0 |
| RerankerTestVectors.ReplySixIsRefused | python/pathway/xpacks/llm/tests/test_rerankers.py:46-50 | reply "6" fails the computation as out of range |
| RerankerTestVectors.ReplyTextIsRefused | python/pathway/xpacks/llm/tests/test_rerankers.py:52-56 | reply "text" fails the computation as not a number |

## Left out

- TopKFilter.RerankTopKFilter: `k` is a `nat`. Negative `k` is not modelled: the behaviour for it is not visible. The model keeps the first `k` items, as `s[:k]` gives for `k >= 0`.
- TopKFilter.RerankTopKFilter: when `docs` and `scores` differ in length, the model cuts the pairs to the shorter sequence, as `zip` would; whether the module not shown does so is not visible. No test covers it. The same applies to `k` at least the number of items, and to `k = 0`.
- ScoreParsing.ParseNumber: exponents (`1e0`), `inf`, `nan`, digit-group underscores, non-ASCII digits and non-ASCII whitespace, all of which Python's `float()` accepts, are read as not-a-number.
- LLMReranking.SelectColumn: when several rows fail, the model reports the first failing row's error. The source computes rows in an order it does not fix and raises one `ValueError`. The error's message text is not modelled.
- The prompt `LLMReranker` builds from (doc, query), and whatever the module not shown does around the model call (for example retries or caching), are a parameter (`scorer`) here.
- Pathway's table machinery (`table_from_rows`, `select`, `assert_table_equality`, `_compute_tables`, `pw.Json`) is replaced by plain sequences.
- Scores are exact reals, not IEEE doubles.
- The vector store server, its client and its adapters (`integration_tests/webserver/test_llm_xpack.py`) are not part of this model: HTTP serving, file-system streaming, threading and third-party adapters.
