/** `predict_sentiment`: normalise, tokenize, pad to the model's window, run
    the model and read its score as a label and a confidence. */
module Sentiment {
  import opened PyStr
  import opened Preprocess
  import opened Padding

  /** A model score: the sigmoid output lies in [0, 1]. */
  type Probability = r: real | 0.0 <= r <= 1.0 witness 0.0

  /** The loaded artifacts: the tokenizer's `texts_to_sequences` for one text
      and the network's `predict` for one window.  Both are opaque. */
  datatype Resources = Resources(tokenizer: string -> seq<int>, model: seq<int> -> Probability)

  datatype Label = Positive | Negative

  /** The triple `predict_sentiment` returns. */
  datatype Prediction = Prediction(sentiment: Label, confidence: real, raw: real)

  /** Scores at or above this are positive. */
  const Threshold: real := 0.5

  /** app.py:206-208: the label is positive iff the score reaches the
      threshold; the confidence is the probability of the chosen label; the
      raw score is passed through. */
  function Interpret(score: real): (p: Prediction)
    ensures p.sentiment == Positive <==> score >= Threshold
    ensures p.confidence == (if p.sentiment == Positive then score else 1.0 - score)
    ensures p.raw == score
  {
    var sentiment := if score >= Threshold then Positive else Negative;
    Prediction(sentiment, if sentiment == Positive then score else 1.0 - score, score)
  }

  /** The confidence is the larger of the two class probabilities, and the
      label names the class that has it (positive on a tie). */
  lemma ConfidenceIsLargerClass(score: real)
    ensures var p := Interpret(score);
            && p.confidence >= score && p.confidence >= 1.0 - score
            && (p.confidence == score || p.confidence == 1.0 - score)
            && (p.sentiment == Positive <==> score >= 1.0 - score)
  {
  }

  /** For a score in [0, 1] the confidence lies in [0.5, 1]. */
  lemma ConfidenceBounds(score: real)
    requires 0.0 <= score <= 1.0
    ensures 0.5 <= Interpret(score).confidence <= 1.0
  {
  }

  /** The score can be recovered from the label and the confidence. */
  lemma InterpretRecoversScore(score: real)
    ensures var p := Interpret(score);
            score == if p.sentiment == Positive then p.confidence else 1.0 - p.confidence
  {
  }

  /** A score of exactly 0.5 is positive with confidence 0.5. */
  lemma InterpretTie()
    ensures Interpret(0.5) == Prediction(Positive, 0.5, 0.5)
  {
  }

  /** The window the model is shown for a review. */
  function WindowFor(rules: CharRules, res: Resources, review: string): (w: seq<int>)
    ensures |w| == Window
  {
    Pad(res.tokenizer(Normalize(rules, review)), Window)
  }

  /** `predict_sentiment(review)`.  Its raw score is the model's output on the
      padded window, so it lies in [0, 1], and then so does the confidence,
      which is at least 0.5. */
  function Predict(rules: CharRules, res: Resources, review: string): (p: Prediction)
    ensures p.raw == res.model(WindowFor(rules, res, review))
    ensures 0.0 <= p.raw <= 1.0
    ensures 0.5 <= p.confidence <= 1.0
    ensures p.sentiment == Positive <==> p.raw >= Threshold
    ensures p.confidence == if p.sentiment == Positive then p.raw else 1.0 - p.raw
  {
    Interpret(res.model(WindowFor(rules, res, review)))
  }

  /** The model sees the review only through its normal form: reviews that
      differ only in case, punctuation or other dropped characters get the
      same prediction. */
  lemma PredictDependsOnNormalForm(rules: CharRules, res: Resources, a: string, b: string)
    requires Normalize(rules, a) == Normalize(rules, b)
    ensures Predict(rules, res, a) == Predict(rules, res, b)
  {
  }

  /** A review the tokenizer maps to no tokens is still scored, on the
      all-zero window. */
  lemma PredictWithoutTokens(rules: CharRules, res: Resources, review: string)
    requires res.tokenizer(Normalize(rules, review)) == []
    ensures Predict(rules, res, review) == Interpret(res.model(Zeros(Window)))
  {
    PadEmpty(Window);
  }
}
