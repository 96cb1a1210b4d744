/** The exact vectors of the reranker tests, as lemmas about the model. */
module RerankerTestVectors {
  import opened Wrappers
  import opened TopKFilter
  import opened ScoreParsing
  import opened LLMReranking

  /** The document {"text": str(i)} for a one-digit i. */
  function TestDoc(i: nat): map<string, string>
    requires i < 10
  {
    map["text" := [('0' as int + i) as char]]
  }

  const Docs: seq<map<string, string>> :=
    [TestDoc(0), TestDoc(1), TestDoc(2), TestDoc(3), TestDoc(4), TestDoc(5), TestDoc(6), TestDoc(7), TestDoc(8), TestDoc(9)]
  const Scores: seq<real> := [1.0, 2.0, 5.5, -10.333, 2.0, 9.5, 5.555, 4.3, 2.8, 9.5]

  /** The single (query = "foo", doc = "bar") row of the reranker tests. */
  const Rows: seq<Row> := [Row("bar", "foo")]
  const OneToFive := RatingScale(1.0, 5.0)

  /** The four stub scorers of the tests, each replying with a fixed text. */
  const Llm1: (string, string) -> string := (doc, query) => "1"
  const Llm2: (string, string) -> string := (doc, query) => "5.0"
  const Llm3: (string, string) -> string := (doc, query) => "6"
  const Llm4: (string, string) -> string := (doc, query) => "text"

  /** Positions 5, 9, 6 are a stable top-3 of the test scores. */
  lemma TestSelectionIsStableTop3()
    ensures IsStableTopK(Scores, 10, 3, [5, 9, 6])
  {
    var sel: seq<nat> := [5, 9, 6];
    forall i, j | 0 <= i < 3 && 0 <= j < 10 && j !in sel ensures Outranks(Scores, sel[i], j) {
      assert j in {0, 1, 2, 3, 4, 7, 8};
    }
  }

  /** The filter keeps positions 5, 9, 6 of the test scores, in that order. */
  lemma TestTopKIndices()
    ensures TopKIndices(Scores, 10, 3) == [5, 9, 6]
  {
    TestSelectionIsStableTop3();
    TopKIndicesMeetSpec(Scores, 10, 3);
    StableTopKIsUnique(Scores, 10, 3, TopKIndices(Scores, 10, 3), [5, 9, 6]);
  }

  /** rerank_topk_filter(docs, scores, 3) keeps docs 5, 9, 6 with scores 9.5, 9.5, 5.555. */
  lemma TopKTestVector()
    ensures RerankTopKFilter(Docs, Scores, 3) == ([TestDoc(5), TestDoc(9), TestDoc(6)], [9.5, 9.5, 5.555])
  {
    TestTopKIndices();
    RerankTopKFilterSelects(Docs, Scores, 3);
    var r := RerankTopKFilter(Docs, Scores, 3);
    assert r.0 == [Docs[5], Docs[9], Docs[6]];
    assert r.1 == [Scores[5], Scores[9], Scores[6]];
  }

  /** The test table's one row is ranked by the scorer's reply for (doc "bar", query "foo"). */
  lemma TestRowRanking(scorer: (string, string) -> string, scale: RatingScale)
    ensures SelectColumn(Reranker(scorer, scale), Rows) == 
            var rank := ScoreReply(scorer("bar", "foo"), scale);
            if rank.Ok? then Ok([rank.value]) else Err(rank.error)
  {
    SelectColumnOfOneRow(Reranker(scorer, scale), Rows[0]);
    assert Reranker(scorer, scale)(Rows[0]) == ScoreReply(scorer("bar", "foo"), scale);
  }

  /** Reply "1" ranks the row 1.0. */
  lemma ReplyOneRanksOne()
    ensures SelectColumn(Reranker(Llm1, OneToFive), Rows) == Ok([1.0])
  {
    var lit := Literal(NoSign, "1", false, "");
    assert Render(lit) == "1" && Value(lit) == 1.0;
    ScoreOfBareLiteral("1", lit, OneToFive);
    TestRowRanking(Llm1, OneToFive);
  }

  /** Reply "5.0" ranks the row 5.0. */
  lemma ReplyFivePointZeroRanksFive()
    ensures SelectColumn(Reranker(Llm2, OneToFive), Rows) == Ok([5.0])
  {
    var lit := Literal(NoSign, "5", true, "0");
    assert Render(lit) == "5.0";
    assert NatValue("5") == 5 && FractionValue("0") == 0.0;
    assert Value(lit) == 5.0;
    ScoreOfBareLiteral("5.0", lit, OneToFive);
    TestRowRanking(Llm2, OneToFive);
  }

  /** Reply "6" is a number off the [1, 5] scale: the computation fails. */
  lemma ReplySixIsRefused()
    ensures SelectColumn(Reranker(Llm3, OneToFive), Rows) == Err(OutOfRange(6.0))
  {
    var lit := Literal(NoSign, "6", false, "");
    assert Render(lit) == "6" && Value(lit) == 6.0;
    ScoreOfBareLiteral("6", lit, OneToFive);
    TestRowRanking(Llm3, OneToFive);
  }

  /** Reply "text" is not a number: the computation fails. */
  lemma ReplyTextIsRefused()
    ensures SelectColumn(Reranker(Llm4, OneToFive), Rows) == Err(NotANumber("text"))
  {
    NonNumericReplyRefused("text", 0, OneToFive);
    TestRowRanking(Llm4, OneToFive);
  }
}
