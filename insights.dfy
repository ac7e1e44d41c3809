/** The descriptive categories shown beside a prediction: the analysis status,
    the word count and depth, and three confidence buckets. */
module Insights {
  import opened PyStr

  datatype Status = Valid | Short
  datatype Depth = Comprehensive | Basic
  datatype Strength = Strong | Moderate | Weak
  datatype Level = High | Medium | Low
  datatype Reliability = Excellent | Good | Fair

  /** Reviews at least this long (unstripped) are "Valid". */
  const ValidLength: nat := 20
  /** More words than this make the analysis "Comprehensive". */
  const ComprehensiveWords: nat := 15
  /** Confidence above this is the top bucket. */
  const HighConfidence: real := 0.8
  /** Confidence above this (and not above HighConfidence) is the middle bucket. */
  const MediumConfidence: real := 0.6

  /** app.py:304: the status looks at the raw input, whitespace included. */
  function StatusOf(input: string): (s: Status)
    ensures s == Valid <==> |input| >= ValidLength
  {
    if |input| >= ValidLength then Valid else Short
  }

  /** app.py:326: `len(user_input.split())`. */
  function WordCount(rules: CharRules, input: string): (n: nat)
    ensures n == WordStarts(rules.isSpace, input)
    ensures n <= |input|
  {
    SplitCountsWordStarts(rules.isSpace, input);
    WordStartsBound(rules.isSpace, input);
    |Split(rules.isSpace, input)|
  }

  lemma {:induction false} WordStartsBound(isSpace: char -> bool, s: string)
    ensures WordStarts(isSpace, s) <= |s|
    decreases |s|
  {
    if s != [] {
      WordStartsBound(isSpace, s[..|s| - 1]);
    }
  }

  /** app.py:330. */
  function DepthOf(words: nat): (d: Depth)
    ensures d == Comprehensive <==> words > ComprehensiveWords
  {
    if words > ComprehensiveWords then Comprehensive else Basic
  }

  /** app.py:334. */
  function StrengthOf(confidence: real): (s: Strength)
    ensures s == Strong <==> confidence > HighConfidence
    ensures s == Moderate <==> MediumConfidence < confidence <= HighConfidence
    ensures s == Weak <==> confidence <= MediumConfidence
  {
    if confidence > HighConfidence then Strong
    else if confidence > MediumConfidence then Moderate
    else Weak
  }

  /** app.py:340. */
  function LevelOf(confidence: real): (l: Level)
    ensures l == High <==> confidence > HighConfidence
    ensures l == Medium <==> MediumConfidence < confidence <= HighConfidence
    ensures l == Low <==> confidence <= MediumConfidence
  {
    if confidence > HighConfidence then High
    else if confidence > MediumConfidence then Medium
    else Low
  }

  /** app.py:341. */
  function ReliabilityOf(confidence: real): (r: Reliability)
    ensures r == Excellent <==> confidence > HighConfidence
    ensures r == Good <==> MediumConfidence < confidence <= HighConfidence
    ensures r == Fair <==> confidence <= MediumConfidence
  {
    if confidence > HighConfidence then Excellent
    else if confidence > MediumConfidence then Good
    else Fair
  }

  /** The three buckets always agree. */
  lemma BucketsAgree(confidence: real)
    ensures StrengthOf(confidence) == Strong <==> LevelOf(confidence) == High
    ensures LevelOf(confidence) == High <==> ReliabilityOf(confidence) == Excellent
    ensures StrengthOf(confidence) == Moderate <==> LevelOf(confidence) == Medium
    ensures LevelOf(confidence) == Medium <==> ReliabilityOf(confidence) == Good
    ensures StrengthOf(confidence) == Weak <==> LevelOf(confidence) == Low
    ensures LevelOf(confidence) == Low <==> ReliabilityOf(confidence) == Fair
  {
  }

  function StrengthRank(s: Strength): nat {
    match s
    case Weak => 0
    case Moderate => 1
    case Strong => 2
  }

  /** More confidence never gives a weaker bucket. */
  lemma StrengthMonotone(c1: real, c2: real)
    requires c1 <= c2
    ensures StrengthRank(StrengthOf(c1)) <= StrengthRank(StrengthOf(c2))
  {
  }

  /** What the shown categories are. */
  datatype Report = Report(status: Status, words: nat, depth: Depth,
                           strength: Strength, level: Level, reliability: Reliability)

  /** app.py:304-341: the categories for a submitted input and the confidence
      of its prediction. */
  function ReportFor(rules: CharRules, input: string, confidence: real): (r: Report)
    ensures r.status == Valid <==> |input| >= ValidLength
    ensures r.words == WordStarts(rules.isSpace, input)
    ensures r.depth == Comprehensive <==> r.words > ComprehensiveWords
    ensures r.strength == Strong <==> confidence > HighConfidence
    ensures r.strength == Weak <==> confidence <= MediumConfidence
    ensures StrengthRank(r.strength) == match r.level case Low => 0 case Medium => 1 case High => 2
    ensures StrengthRank(r.strength) == match r.reliability case Fair => 0 case Good => 1 case Excellent => 2
  {
    var n := WordCount(rules, input);
    Report(StatusOf(input), n, DepthOf(n), StrengthOf(confidence), LevelOf(confidence), ReliabilityOf(confidence))
  }
}
