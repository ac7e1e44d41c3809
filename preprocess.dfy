/** `preprocess_text`: lower-case a review and keep only its alphanumeric and
    whitespace characters. */
module Preprocess {
  import opened PyStr

  /** `preprocess_text(text)`: `text.lower()`, then the characters `c` with
      `c.isalnum() or c.isspace()`, in order. */
  function Normalize(rules: CharRules, text: string): (r: string)
    ensures forall i :: 0 <= i < |r| ==> rules.Keep(r[i])
    ensures |r| <= |Lower(rules, text)|
    ensures rules.LowerKeepsLength() ==> |r| <= |text|
  {
    Filter(rules.KeepTest(), Lower(rules, text))
  }

  /** The normalised text is exactly the in-order subsequence of the
      lower-cased text made of its alphanumeric and whitespace characters. */
  lemma NormalizeIsKeptSubsequence(rules: CharRules, text: string)
    ensures var low := Lower(rules, text);
            var idx := KeptIndices(rules.KeepTest(), low);
            && |Normalize(rules, text)| == |idx|
            && (forall k :: 0 <= k < |idx| ==> idx[k] < |low| && Normalize(rules, text)[k] == low[idx[k]])
            && (forall k, l :: 0 <= k < l < |idx| ==> idx[k] < idx[l])
            && (forall i :: 0 <= i < |low| ==> (i in idx <==> rules.Keep(low[i])))
  {
    FilterIsKeptSubsequence(rules.KeepTest(), Lower(rules, text));
  }

  /** Text already in normal form (every character kept and its own lower
      case) is returned unchanged. */
  lemma NormalizeFixesNormalForm(rules: CharRules, text: string)
    requires forall c :: c in text ==> rules.Keep(c) && rules.lower(c) == [c]
    ensures Normalize(rules, text) == text
  {
    LowerOfFixed(rules, text);
    FilterAllPass(rules.KeepTest(), text);
  }

  /** Normalised text is lower case: each of its characters is its own lower
      case, when lower-casing is idempotent. */
  lemma NormalizeIsLowerCase(rules: CharRules, text: string)
    requires rules.LowerIdempotent()
    ensures forall c :: c in Normalize(rules, text) ==> rules.lower(c) == [c]
  {
    LowerOutputIsFixed(rules, text);
  }

  /** Normalising is idempotent when lower-casing is. */
  lemma NormalizeIdempotent(rules: CharRules, text: string)
    requires rules.LowerIdempotent()
    ensures Normalize(rules, Normalize(rules, text)) == Normalize(rules, text)
  {
    var t := Normalize(rules, text);
    NormalizeIsLowerCase(rules, text);
    forall c | c in t
      ensures rules.Keep(c) && rules.lower(c) == [c]
    {
      var i :| 0 <= i < |t| && t[i] == c;
    }
    NormalizeFixesNormalForm(rules, t);
  }

  /** Normalising never lengthens the review, as long as lower-casing one code
      point never yields more than one kept character. */
  lemma {:induction false} NormalizeNeverLonger(rules: CharRules, text: string)
    requires rules.AtMostOneKept()
    ensures |Normalize(rules, text)| <= |text|
    decreases |text|
  {
    if text != [] {
      var c, rest := text[0], text[1..];
      assert text == [c] + rest;
      NormalizeConcat(rules, [c], rest);
      assert Lower(rules, [c]) == rules.lower(c) by {
        assert [c][1..] == [];
      }
      assert |Normalize(rules, [c])| <= 1;
      NormalizeNeverLonger(rules, rest);
    }
  }

  /** Normalisation works character by character: it distributes over
      concatenation. */
  lemma NormalizeConcat(rules: CharRules, a: string, b: string)
    ensures Normalize(rules, a + b) == Normalize(rules, a) + Normalize(rules, b)
  {
    LowerConcat(rules, a, b);
    FilterConcat(rules.KeepTest(), Lower(rules, a), Lower(rules, b));
  }

  /** Case does not matter: lower-casing the review first gives the same
      normal form. */
  lemma NormalizeIgnoresCase(rules: CharRules, text: string)
    requires rules.LowerIdempotent()
    ensures Normalize(rules, Lower(rules, text)) == Normalize(rules, text)
  {
    LowerIdempotentString(rules, text);
  }

  /** Removed characters do not matter: dropping any characters that are not
      kept after lower-casing gives the same normal form. */
  lemma NormalizeIgnoresDropped(rules: CharRules, a: string, c: char, b: string)
    requires forall d :: d in rules.lower(c) ==> !rules.Keep(d)
    ensures Normalize(rules, a + [c] + b) == Normalize(rules, a + b)
  {
    NormalizeConcat(rules, a + [c], b);
    NormalizeConcat(rules, a, [c]);
    NormalizeConcat(rules, a, b);
    assert Lower(rules, [c]) == rules.lower(c) by {
      assert [c][..0] == [];
    }
    FilterNonePass(rules.KeepTest(), rules.lower(c));
  }

  /** A short ASCII review is lower-cased and loses its punctuation, keeping
      its spaces. */
  lemma NormalizeExample()
    ensures Normalize(Ascii(), "Day 1!") == "day 1"
  {
  }
}
