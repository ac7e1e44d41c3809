# SentimentScope: the review-to-verdict path, in Dafny

This project models the logic of a one-page review analyzer (`app.py`). The
user types a review and presses "Analyze Sentiment". That logic has four parts:

- **The submit gate.** An input that is blank after `strip()` gets the
  "enter a review" warning. A stripped input shorter than ten characters gets
  the "more detailed review" warning. Anything else is analysed.
- **`preprocess_text`.** The review is lower-cased, and every character that
  is neither alphanumeric nor whitespace is dropped.
- **`predict_sentiment`.** The normalised text goes through the tokenizer.
  The tokens go through Keras `pad_sequences(..., maxlen=100)` with its default
  arguments: zeros at the front, and truncation from the front. The window then
  goes through the network. The score is read as a label (Positive iff
  score >= 0.5), a confidence (the score, or 1 - score for Negative) and the
  raw score itself.
- **The categories shown beside a result.** The status is "Valid" iff the raw
  input has at least 20 characters. The word count is `len(input.split())`, and
  "Comprehensive" means more than 15 words. There are three confidence buckets
  (strength, level and reliability), each with thresholds 0.8 and 0.6.

Everything is modelled as pure functions and lemmas, because the source is pure.
The modules are:

- `PyStr` (pystr.dfy): the Python string builtins involved. These are
  `lower`, `isalnum`, `isspace`, the filtering comprehension, `strip()` and
  `split()`. The character tables are a parameter of type `CharRules`, because
  CPython's tables are Unicode data this model does not contain. `lower` maps a
  code point to a *string*, since full case mapping can lengthen text.
  `Ascii()` is an instance that agrees with CPython below code point 128.
- `Preprocess` (preprocess.dfy): `preprocess_text`.
- `Padding` (padding.dfy): `pad_sequences` with its default arguments.
- `Sentiment` (sentiment.dfy): score interpretation and `predict_sentiment`.
  The tokenizer (`texts_to_sequences`) and the network (`predict`) are opaque
  functions inside a `Resources` value. The network's result has type
  `Probability`, a real in [0, 1].
- `Insights` (insights.dfy): status, word count, depth and the three buckets.
- `App` (app.py's button handler, app.dfy): `Submit`, which composes
  gate → normalise → tokenize → pad → model → interpret → categories.
- `Scenarios` (scenarios.dfy): the review "Terrible, broke on day one!!" taken
  through the whole path with the ASCII tables.

## Behaviour that is easy to misread


- The gate compares the length of the *stripped* input with 10. Whitespace
  inside the review counts toward that length. It is not a count of
  non-whitespace characters.
- An empty or all-whitespace input gets the "Please enter a review" warning,
  not the short-review warning.
- When `load_resources` fails, the gate still runs. An input that passes it
  would raise (`tokenizer` is `None`), so nothing refuses the call. The model
  names this outcome `ArtifactsMissing`.
- Normalised text is never longer than the input, even though full Unicode
  lower-casing can lengthen text (U+0130 becomes "i" followed by U+0307). The
  reason is that at most one character of any code point's lower case is kept
  (U+0307 is neither alphanumeric nor whitespace). The model states this as the
  table property `AtMostOneKept` and proves the bound from it
  (`Preprocess.NormalizeNeverLonger`); tables that break it are outside what
  the proof covers.
- The confidence lies in [0.5, 1] for every score in [0, 1], the tie 0.5
  included.

## Model

| member | source | states |
|---|---|---|
| PyStr.AsciiLower | app.py:197 | ASCII `lower()`: an upper-case letter becomes the letter 32 code points later; every other character is unchanged; the result is always one character |
| PyStr.AsciiIsAlnum | app.py:198 | ASCII `isalnum()`: exactly the letters and digits; such a character is below code point 128 and is not whitespace |
| PyStr.AsciiIsSpace | app.py:198 | ASCII `isspace()`, the same table that `strip()` (app.py:247) and `split()` (app.py:326) use: exactly space, tab, line feed, vertical tab, form feed, carriage return and the separators 28-31; lower-casing leaves each of them unchanged |
| PyStr.AsciiWellBehaved | app.py:197-198 | the ASCII tables satisfy every assumption the lemmas use: lower-casing is idempotent on its output, never changes length, keeps at most one character per code point, and does not change whether a character is kept |
| PyStr.Filter | app.py:198 | the comprehension keeps only characters passing the test, never lengthens, and introduces no character absent from the input |
| PyStr.KeptIndices | app.py:198 | the passing positions, strictly increasing, in range, and containing a position iff its character passes |
| PyStr.FilterIsKeptSubsequence | app.py:198 | the filtered string is exactly the input's characters at the passing positions, in order |
| PyStr.Lower | app.py:197 | `lower()` gives output the same length as the input when the mapping keeps length; every output character comes from lower-casing some input character |
| PyStr.LowerIdempotentString | app.py:197 | lower-casing a lower-cased string changes nothing, when the per-character mapping is idempotent |
| PyStr.Strip | app.py:247-248 | `strip()` is the slice after the leading whitespace with only whitespace outside it; it is empty iff the input is all whitespace, and otherwise begins and ends with non-whitespace |
| PyStr.StripUnpadded | app.py:247-248 | a non-empty string whose first and last characters are not whitespace is its own `strip()` |
| PyStr.StripIdempotent | app.py:247-248 | stripping a stripped string changes nothing |
| PyStr.Split | app.py:326 | every word `split()` returns is non-empty and free of whitespace; there are no words iff the input is all whitespace |
| PyStr.SplitFirstWord | app.py:326 | the first word is the whole run of non-whitespace after the leading whitespace: it starts there and ends at whitespace or at the end of the input |
| PyStr.SplitKeepsNonSpace | app.py:326 | the words, joined, are exactly the non-whitespace characters of the input in order |
| PyStr.SplitCountsWordStarts | app.py:326 | the number of words equals the number of positions holding non-whitespace at the start or after whitespace |
| Preprocess.Normalize | app.py:196-199 | every output character is alphanumeric or whitespace; the output is no longer than the lower-cased input, hence no longer than the input when lower-casing keeps length |
| Preprocess.NormalizeIsKeptSubsequence | app.py:196-199 | the output is exactly the in-order subsequence of the lower-cased input at the positions whose character is alphanumeric or whitespace |
| Preprocess.NormalizeFixesNormalForm | app.py:196-199 | text whose characters are all kept and already lower case is returned unchanged |
| Preprocess.NormalizeIsLowerCase | app.py:197 | every character of the normal form is its own lower case, given an idempotent per-character lower |
| Preprocess.NormalizeNeverLonger | app.py:196-199 | the normal form is never longer than the input, given that at most one character of each code point's lower case is kept |
| Preprocess.NormalizeIdempotent | app.py:196-199 | normalising normalised text returns it unchanged, given an idempotent per-character lower |
| Preprocess.NormalizeConcat | app.py:197-198 | normalisation is character by character: the normal form of a concatenation is the concatenation of the normal forms |
| Preprocess.NormalizeIgnoresCase | app.py:197 | lower-casing a review before normalising it does not change the result |
| Preprocess.NormalizeIgnoresDropped | app.py:198 | inserting a character whose lower case has no kept character does not change the normal form |
| Preprocess.NormalizeExample | app.py:196-199 | with the ASCII tables, "Day 1!" normalises to "day 1" |
| Padding.Pad | app.py:204 | the window has exactly maxlen positions; it is right-aligned, with each position holding the matching token from the end, or 0 where the tokens run out |
| Padding.PadShort | app.py:204 | a sequence of n <= maxlen tokens becomes maxlen - n zeros followed by all the tokens |
| Padding.PadLong | app.py:204 | a sequence longer than maxlen keeps only its last maxlen tokens |
| Padding.PadEmpty | app.py:204 | no tokens give an all-zero window |
| Padding.PadIdempotent | app.py:204 | padding an already padded window changes nothing |
| Padding.PadKeepsLastTokens | app.py:204 | two long sequences with the same last maxlen tokens pad to the same window |
| Sentiment.Interpret | app.py:206-208 | Positive iff score >= 0.5; confidence is the score for Positive and 1 - score for Negative; the raw score is returned unchanged |
| Sentiment.ConfidenceIsLargerClass | app.py:206-207 | the confidence is the larger of score and 1 - score, and the label names that class, Positive on a tie |
| Sentiment.ConfidenceBounds | app.py:206-207 | for a score in [0, 1] the confidence lies in [0.5, 1] |
| Sentiment.InterpretRecoversScore | app.py:206-208 | the score is recovered from the label and the confidence |
| Sentiment.InterpretTie | app.py:206-207 | a score of exactly 0.5 is Positive with confidence 0.5 |
| Sentiment.WindowFor | app.py:202-204 | the model is always shown exactly 100 token positions |
| Sentiment.Predict | app.py:201-208 | the raw score is the model's output on the padded window of the tokenized normal form; it lies in [0, 1], the confidence in [0.5, 1], the label is Positive iff the raw score >= 0.5, and the confidence is the raw score for Positive and 1 - raw score for Negative |
| Sentiment.PredictDependsOnNormalForm | app.py:202-205 | reviews with the same normal form get the same prediction |
| Sentiment.PredictWithoutTokens | app.py:203-205 | a review that yields no tokens is still scored, on the all-zero window |
| Insights.StatusOf | app.py:304 | "Valid" iff the raw input has at least 20 characters, else "Short" |
| Insights.WordCount | app.py:326 | the word count equals the number of word starts and is at most the input's length |
| Insights.DepthOf | app.py:330 | "Comprehensive" iff more than 15 words, else "Basic" |
| Insights.StrengthOf | app.py:334 | Strong iff confidence > 0.8, Moderate iff 0.6 < confidence <= 0.8, Weak iff confidence <= 0.6 |
| Insights.LevelOf | app.py:340 | High, Medium or Low under the same two thresholds |
| Insights.ReliabilityOf | app.py:341 | Excellent, Good or Fair under the same two thresholds |
| Insights.BucketsAgree | app.py:334-341 | the strength, level and reliability buckets always agree |
| Insights.StrengthMonotone | app.py:334 | a higher confidence never gives a weaker strength |
| Insights.ReportFor | app.py:304-341 | the displayed categories: status from raw length, word count equal to the word starts, depth from that count, and the three buckets in agreement |
| App.Submit | app.py:246-344 | all-whitespace input iff the empty-review warning; stripped length 1-9 iff the short warning; otherwise the prediction and categories, or ArtifactsMissing when nothing was loaded |
| App.GateNeverRunsModel | app.py:246-249 | for a rejected input the outcome does not depend on the loaded model or tokenizer, and no analysis is produced |
| App.AnalysedFacts | app.py:246-252 | an analysed input has at least 10 characters, a raw score in [0, 1] and a confidence in [0.5, 1] |
| App.StrengthFromScore | app.py:334 | read from the raw score, strength is Strong iff score < 0.2 or > 0.8, and Weak iff 0.4 <= score <= 0.6 |
| App.EmptyScenario | app.py:343-344 | the empty string gets the "enter a review" warning |
| App.NegativeScenario | app.py:206-208 | a review that passes the gate and is scored 0.12 gives (Negative, 0.88, 0.12), Strong/High/Excellent |
| App.PositiveScenario | app.py:206-208 | a review that passes the gate and is scored 0.93 gives (Positive, 0.93, 0.93), Strong |
| Scenarios.NormalizeReview | app.py:196-199 | with the ASCII tables, "Terrible, broke on day one!!" normalises to "terrible broke on day one" |
| Scenarios.NegativeReviewScenario | app.py:246-341 | that review, submitted with artifacts scoring its window 0.12, passes the gate and gives (Negative, 0.88, 0.12), status Valid, Strong/High/Excellent |

## Left out

- Page configuration, CSS, widgets, columns, expanders, emoji and status colours (app.py:12-180, and the rendering in 230-344): presentation only.
- `load_resources` (app.py:182-194): reading and deserialising the model and tokenizer files, compiling the model and `st.cache_resource` memoisation are foreign I/O. Only its result is modelled, as `App.Artifacts`.
- `create_confidence_gauge` (app.py:210-228): matplotlib plotting.
- The fixed "89.2%" accuracy card (app.py:288): a constant with no logic.
- The environment-variable setup (app.py:9-10): logging verbosity only.
- The tokenizer's vocabulary and out-of-vocabulary policy and the network's internals: both are opaque functions in `Sentiment.Resources`.
- IEEE floating point: model scores and `1 - score` are mathematical reals. Rounding of the score or of the confidence near the 0.5, 0.6 and 0.8 thresholds is not modelled.
- Padding.Pad: the `int32` cast that `pad_sequences` applies to its output is not modelled; token IDs are unbounded integers.
- PyStr.Lower: CPython's context-dependent final-sigma rule (a capital sigma at the end of a word lower-cases to U+03C2) is not modelled; lower-casing is per code point.
- Preprocess.Normalize: the Unicode tables of `str.lower`, `str.isalnum` and `str.isspace` are parameters. Only the ASCII instance is given concretely.
- The uncaught exception raised when the gate passes without loaded artifacts is the outcome `ArtifactsMissing`. Streamlit's error display is not modelled.
