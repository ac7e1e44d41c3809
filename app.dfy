/** What one press of "Analyze Sentiment" produces (app.py:246-344): the
    input gate, then the prediction and the categories shown beside it. */
module App {
  import opened PyStr
  import opened Preprocess
  import opened Padding
  import opened Sentiment
  import opened Insights

  /** The gate's minimum stripped length. */
  const MinReviewLength: nat := 10

  /** The module-level `model, tokenizer` pair: either both loaded, or both
      `None` after `load_resources` failed. */
  datatype Artifacts = Ready(resources: Resources) | Missing

  datatype Outcome =
    | EmptyWarning   // "Please enter a review to analyze"
    | ShortWarning   // "Please provide a more detailed review (at least 10 characters)"
    | ArtifactsMissing  // the gate passed but there is no tokenizer to call
    | Analysed(prediction: Prediction, report: Report)

  /** The button handler.  A blank input only warns; a stripped input shorter
      than ten characters only warns; otherwise the review is predicted, which
      needs the artifacts, and the categories are derived. */
  function Submit(rules: CharRules, loaded: Artifacts, input: string): (o: Outcome)
    ensures o == EmptyWarning <==> forall k :: 0 <= k < |input| ==> rules.isSpace(input[k])
    ensures o == ShortWarning <==> 0 < |Strip(rules.isSpace, input)| < MinReviewLength
    ensures o == ArtifactsMissing <==> |Strip(rules.isSpace, input)| >= MinReviewLength && loaded == Missing
    ensures o.Analysed? <==> |Strip(rules.isSpace, input)| >= MinReviewLength && loaded.Ready?
    ensures o.Analysed? ==> && o.prediction == Predict(rules, loaded.resources, input)
                            && o.report == ReportFor(rules, input, o.prediction.confidence)
  {
    var stripped := Strip(rules.isSpace, input);
    if stripped == [] then EmptyWarning
    else if |stripped| < MinReviewLength then ShortWarning
    else match loaded
      case Missing => ArtifactsMissing
      case Ready(res) =>
        var p := Predict(rules, res, input);
        Analysed(p, ReportFor(rules, input, p.confidence))
  }

  /** A rejected input never reaches the model: the outcome is the same
      whatever artifacts are loaded. */
  lemma GateNeverRunsModel(rules: CharRules, a: Artifacts, b: Artifacts, input: string)
    requires |Strip(rules.isSpace, input)| < MinReviewLength
    ensures Submit(rules, a, input) == Submit(rules, b, input)
    ensures !Submit(rules, a, input).Analysed?
  {
  }

  /** Every analysed review is at least ten characters long, and its
      confidence and score are in range. */
  lemma AnalysedFacts(rules: CharRules, loaded: Artifacts, input: string)
    requires Submit(rules, loaded, input).Analysed?
    ensures |input| >= MinReviewLength
    ensures var p := Submit(rules, loaded, input).prediction;
            0.0 <= p.raw <= 1.0 && 0.5 <= p.confidence <= 1.0
  {
  }

  /** The strength bucket read off the raw score: strong below 0.2 or above
      0.8, weak from 0.4 to 0.6. */
  lemma StrengthFromScore(score: real)
    requires 0.0 <= score <= 1.0
    ensures StrengthOf(Interpret(score).confidence) == Strong <==> score < 0.2 || score > 0.8
    ensures StrengthOf(Interpret(score).confidence) == Weak <==> 0.4 <= score <= 0.6
  {
  }

  /** An empty submission gets the "enter a review" warning. */
  lemma EmptyScenario(loaded: Artifacts)
    ensures Submit(Ascii(), loaded, "") == EmptyWarning
  {
  }

  /** A long enough review scored 0.12 is negative with confidence 0.88,
      a strong, high, excellent bucket. */
  lemma NegativeScenario(rules: CharRules, res: Resources, input: string)
    requires |Strip(rules.isSpace, input)| >= MinReviewLength
    requires res.model(WindowFor(rules, res, input)) == 0.12
    ensures var o := Submit(rules, Ready(res), input);
            && o.Analysed?
            && o.prediction == Prediction(Negative, 0.88, 0.12)
            && o.report.strength == Strong && o.report.level == High && o.report.reliability == Excellent
  {
  }

  /** A long enough review scored 0.93 is positive with confidence 0.93. */
  lemma PositiveScenario(rules: CharRules, res: Resources, input: string)
    requires |Strip(rules.isSpace, input)| >= MinReviewLength
    requires res.model(WindowFor(rules, res, input)) == 0.93
    ensures var o := Submit(rules, Ready(res), input);
            && o.Analysed?
            && o.prediction == Prediction(Positive, 0.93, 0.93)
            && o.report.strength == Strong
  {
  }
}
