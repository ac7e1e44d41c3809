/** The worked negative review, "Terrible, broke on day one!!", taken through
    the whole path with the ASCII tables.  Literal strings are costly for the
    verifier, so the review is normalised in six chunks that are joined by
    NormalizeConcat. */
module Scenarios {
  import opened PyStr
  import opened Preprocess
  import opened Padding
  import opened Sentiment
  import opened Insights
  import opened App

  const Review: string := "Terrible, broke on day one!!"
  const Cleaned: string := "terrible broke on day one"

  lemma NormalizeConcat6(rules: CharRules, a: string, b: string, c: string, d: string, e: string, f: string)
    ensures Normalize(rules, a + b + c + d + e + f)
         == Normalize(rules, a) + Normalize(rules, b) + Normalize(rules, c)
            + Normalize(rules, d) + Normalize(rules, e) + Normalize(rules, f)
  {
    NormalizeConcat(rules, a + b + c + d + e, f);
    NormalizeConcat(rules, a + b + c + d, e);
    NormalizeConcat(rules, a + b + c, d);
    NormalizeConcat(rules, a + b, c);
    NormalizeConcat(rules, a, b);
  }

  lemma Chunk1() ensures Normalize(Ascii(), "Terri") == "terri" {}
  lemma Chunk2() ensures Normalize(Ascii(), "ble, ") == "ble " {}
  lemma Chunk3() ensures Normalize(Ascii(), "broke") == "broke" {}
  lemma Chunk4() ensures Normalize(Ascii(), " on d") == " on d" {}
  lemma Chunk5() ensures Normalize(Ascii(), "ay on") == "ay on" {}
  lemma Chunk6() ensures Normalize(Ascii(), "e!!") == "e" {}

  lemma ReviewSplits()
    ensures "Terri" + "ble, " + "broke" + " on d" + "ay on" + "e!!" == Review
  {
  }

  lemma ReviewEnds()
    ensures |Review| == 28 && Review[0] == 'T' && Review[27] == '!'
  {
  }

  lemma CleanedJoins()
    ensures "terri" + "ble " + "broke" + " on d" + "ay on" + "e" == Cleaned
  {
  }

  /** The worked review lower-cases and loses its comma and exclamation
      marks, keeping its spaces. */
  lemma NormalizeReview()
    ensures Normalize(Ascii(), Review) == Cleaned
  {
    ReviewSplits();
    NormalizeConcat6(Ascii(), "Terri", "ble, ", "broke", " on d", "ay on", "e!!");
    Chunk1(); Chunk2(); Chunk3(); Chunk4(); Chunk5(); Chunk6();
    CleanedJoins();
  }

  /** The worked review has no surrounding whitespace, so it passes the gate
      unchanged, and it is long enough for a Valid status. */
  lemma ReviewPassesGate()
    ensures Strip(AsciiIsSpace, Review) == Review
    ensures |Review| == 28
  {
    ReviewEnds();
    StripUnpadded(AsciiIsSpace, Review);
  }

  /** The model is shown the padded tokens of the cleaned review. */
  lemma ReviewWindow(res: Resources)
    ensures WindowFor(Ascii(), res, Review) == Pad(res.tokenizer(Cleaned), Window)
  {
    NormalizeReview();
  }

  /** Submitted with loaded artifacts that score its window 0.12, the worked
      review passes the gate and is Negative with confidence 0.88, a Valid
      status and the top strength, level and reliability buckets. */
  lemma NegativeReviewScenario(res: Resources)
    requires res.model(Pad(res.tokenizer(Cleaned), Window)) == 0.12
    ensures var o := Submit(Ascii(), Ready(res), Review);
            && o.Analysed?
            && o.prediction == Prediction(Negative, 0.88, 0.12)
            && o.report.status == Valid
            && o.report.strength == Strong && o.report.level == High && o.report.reliability == Excellent
  {
    ReviewWindow(res);
    ReviewPassesGate();
    NegativeScenario(Ascii(), res, Review);
  }
}
