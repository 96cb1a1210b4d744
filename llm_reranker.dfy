/**
 * LLMReranker: for each (doc, query) row the scoring model is asked for a
 * rating and replies with free text; the reply becomes the row's rank when it
 * is a number on the rating scale, and otherwise the computation fails with a
 * ValueError: no default rank is ever substituted.
 *
 * The scoring model is an arbitrary function from (doc, query) to its reply;
 * the rating scale is a parameter (the instance the tests use is [1, 5]).
 */
module LLMReranking {
  import opened Wrappers
  import opened ScoreParsing

  /** The closed range of accepted ratings. */
  datatype RatingScale = RatingScale(lowest: real, highest: real)

  predicate OnScale(scale: RatingScale, v: real) {
    scale.lowest <= v <= scale.highest
  }

  /** Why a reply is refused (both raise ValueError in the source). */
  datatype ScoreError = NotANumber(reply: string) | OutOfRange(rating: real)

  /** One row of the reranked table. */
  datatype Row = Row(doc: string, query: string)

  /** The rank a reply gives: its number when that is on the scale. */
  function ScoreReply(reply: string, scale: RatingScale): (r: Result<real, ScoreError>)
    ensures r.Ok? <==> ParseNumber(reply).Some? && OnScale(scale, ParseNumber(reply).value)
    ensures r.Ok? ==> r.value == ParseNumber(reply).value
    ensures ParseNumber(reply).None? ==> r == Err(NotANumber(reply))
  {
    match ParseNumber(reply)
    case None => Err(NotANumber(reply))
    case Some(v) => if OnScale(scale, v) then Ok(v) else Err(OutOfRange(v))
  }

  /** The rank of one row: the scorer's reply for (doc, query), validated. */
  function Rank(scorer: (string, string) -> string, row: Row, scale: RatingScale): Result<real, ScoreError> {
    ScoreReply(scorer(row.doc, row.query), scale)
  }

  /** LLMReranker(llm) as the function it applies to each row. */
  function Reranker(scorer: (string, string) -> string, scale: RatingScale): Row -> Result<real, ScoreError> {
    row => Rank(scorer, row, scale)
  }

  /** Selecting a column computed by `udf` and computing the table: one value
      per row, or, as soon as any row raises, the whole computation fails. */
  function SelectColumn<R, V, E>(udf: R -> Result<V, E>, rows: seq<R>): (r: Result<seq<V>, E>)
    ensures r.Ok? <==> forall i :: 0 <= i < |rows| ==> udf(rows[i]).Ok?
    ensures r.Ok? ==> |r.value| == |rows|
    ensures r.Ok? ==> forall i :: 0 <= i < |rows| ==> udf(rows[i]) == Ok(r.value[i])
    ensures r.Err? ==> exists i :: 0 <= i < |rows| && udf(rows[i]) == Err(r.error)
  {
    if rows == [] then Ok([])
    else
      var head, tail := udf(rows[0]), SelectColumn(udf, rows[1..]);
      assert forall i :: 1 <= i < |rows| ==> rows[1..][i - 1] == rows[i];
      if head.Err? then Err(head.error)
      else if tail.Err? then
        assert exists i :: 1 <= i < |rows| && udf(rows[i]) == Err(tail.error);
        Err(tail.error)
      else Ok([head.value] + tail.value)
  }

  /** A one-row table gets that row's value, or fails with its error. */
  lemma SelectColumnOfOneRow<R, V, E>(udf: R -> Result<V, E>, row: R)
    ensures SelectColumn(udf, [row]) == if udf(row).Ok? then Ok([udf(row).value]) else Err(udf(row).error)
  {
    assert [row][1..] == [];
    assert SelectColumn(udf, [row][1..]) == Ok([]);
    if udf(row).Ok? {
      assert [udf(row).value] + [] == [udf(row).value];
    }
  }

  // ---------------------------------------------------------------------
  // What a reply can give.

  /** A reply that is a decimal literal, possibly padded with whitespace, is
      ranked by its value when on the scale and refused as out of range otherwise. */
  lemma ScoreOfLiteral(a: string, lit: Literal, b: string, scale: RatingScale)
    requires WellFormed(lit) && AllSpace(a) && AllSpace(b)
    ensures OnScale(scale, Value(lit)) ==> ScoreReply(a + Render(lit) + b, scale) == Ok(Value(lit))
    ensures !OnScale(scale, Value(lit)) ==> ScoreReply(a + Render(lit) + b, scale) == Err(OutOfRange(Value(lit)))
  {
    ParseNumberComplete(a, lit, b);
  }

  /** A reply spelling a literal, with nothing around it, is scored by the literal's value. */
  lemma ScoreOfBareLiteral(reply: string, lit: Literal, scale: RatingScale)
    requires WellFormed(lit) && Render(lit) == reply
    ensures ScoreReply(reply, scale) == if OnScale(scale, Value(lit)) then Ok(Value(lit)) else Err(OutOfRange(Value(lit)))
  {
    ScoreOfLiteral("", lit, "", scale);
    assert "" + reply + "" == reply;
  }

  /** An accepted rank is on the scale and is the value of the literal the
      stripped reply spells: it is never a substituted default. */
  lemma AcceptedRankIsReplyValue(reply: string, scale: RatingScale)
    requires ScoreReply(reply, scale).Ok?
    ensures OnScale(scale, ScoreReply(reply, scale).value)
    ensures exists lit :: WellFormed(lit) && Render(lit) == Strip(reply) && Value(lit) == ScoreReply(reply, scale).value
  {
    ParseNumberSound(reply);
  }

  /** A reply with a character that is neither whitespace nor a numeral
      character is refused as not a number, whatever the scale. */
  lemma NonNumericReplyRefused(reply: string, i: nat, scale: RatingScale)
    requires i < |reply| && !IsSpace(reply[i]) && !IsNumeralChar(reply[i])
    ensures ScoreReply(reply, scale) == Err(NotANumber(reply))
  {
    NonNumeralIsNotANumber(reply, i);
  }
}
