/** The few Python string builtins the analyzer relies on: per-character case
    and class tests (`str.lower`, `str.isalnum`, `str.isspace`), filtering a
    string by a character test, `str.strip()` and `str.split()` with no
    arguments.  Character classes are parameters (a `CharRules` value), so the
    lemmas hold for any Unicode table that meets their stated assumptions. */
module PyStr {

  /** The per-character behaviour of the Python runtime.  `lower` maps one code
      point to a string because Python's full case mapping may lengthen it
      (U+0130 lower-cases to two code points). */
  datatype CharRules = CharRules(lower: char -> string, isAlnum: char -> bool, isSpace: char -> bool)
  {
    /** The characters `preprocess_text` keeps. */
    predicate Keep(c: char) {
      isAlnum(c) || isSpace(c)
    }

    function KeepTest(): char -> bool {
      c => Keep(c)
    }

    function NonSpaceTest(): char -> bool {
      c => !isSpace(c)
    }

    /** Lower-casing something already lower-cased changes nothing. */
    ghost predicate LowerIdempotent() {
      forall c, d :: d in lower(c) ==> lower(d) == [d]
    }

    /** Lower-casing never changes the number of code points (true of ASCII,
        false of full Unicode). */
    ghost predicate LowerKeepsLength() {
      forall c :: |lower(c)| == 1
    }

    /** Lower-casing a code point yields at most one character that
        `preprocess_text` keeps.  This holds of CPython's tables: the one
        code point whose lower case is longer (U+0130) lower-cases to 'i'
        followed by the combining mark U+0307, which is neither alphanumeric
        nor whitespace. */
    ghost predicate AtMostOneKept() {
      forall c :: |Filter(KeepTest(), lower(c))| <= 1
    }
  }

  /** Python's rules restricted to ASCII: they agree with CPython on every code
      point below 128 and treat every other code point as neither alphanumeric
      nor whitespace, and as its own lower case. */
  function AsciiLower(c: char): (r: string)
    ensures |r| == 1
    ensures 'A' <= c <= 'Z' ==> 'a' <= r[0] <= 'z' && r[0] as int == c as int + 32
    ensures !('A' <= c <= 'Z') ==> r == [c]
  {
    if 'A' <= c <= 'Z' then [(c as int + 32) as char] else [c]
  }

  /** ASCII `str.isalnum`: the 52 letters and 10 digits; none of them is
      whitespace. */
  predicate AsciiIsAlnum(c: char)
    ensures AsciiIsAlnum(c) ==> c as int < 128 && !AsciiIsSpace(c)
  {
    ('a' <= c <= 'z') || ('A' <= c <= 'Z') || ('0' <= c <= '9')
  }

  /** Space, the controls TAB..CR (9-13) and the separators FS..US (28-31):
      exactly the ASCII code points for which CPython's `str.isspace` holds. */
  predicate AsciiIsSpace(c: char)
    ensures AsciiIsSpace(c) <==> c in {' ', '\t', '\n', '\r', 11 as char, 12 as char, 28 as char, 29 as char, 30 as char, 31 as char}
    ensures AsciiIsSpace(c) ==> AsciiLower(c) == [c]
  {
    c == ' ' || 9 <= c as int <= 13 || 28 <= c as int <= 31
  }

  function Ascii(): CharRules {
    CharRules(AsciiLower, AsciiIsAlnum, AsciiIsSpace)
  }

  /** The ASCII tables meet every assumption the lemmas make, and lower-casing
      keeps a character's class. */
  lemma AsciiWellBehaved()
    ensures Ascii().LowerIdempotent()
    ensures Ascii().LowerKeepsLength()
    ensures Ascii().AtMostOneKept()
    ensures forall c :: Ascii().Keep(c) <==> Ascii().Keep(AsciiLower(c)[0])
  {
    var r := Ascii();
    forall c: char, d: char | d in r.lower(c)
      ensures r.lower(d) == [d]
    {
      assert d == AsciiLower(c)[0];
    }
    forall c: char
      ensures |Filter(r.KeepTest(), r.lower(c))| <= 1
    {
      assert |r.lower(c)| == 1;
    }
  }

  // ---------------------------------------------------------------------
  // Filtering by a character test (the list comprehension of app.py:198)
  // ---------------------------------------------------------------------

  /** The characters of `s` that pass `p`, in their original order. */
  function Filter(p: char -> bool, s: string): (r: string)
    ensures |r| <= |s|
    ensures forall i :: 0 <= i < |r| ==> p(r[i])
    ensures forall c :: c in r ==> c in s
  {
    if s == [] then []
    else (if p(s[0]) then [s[0]] else []) + Filter(p, s[1..])
  }

  /** The positions from `i` on whose character passes `p`, in increasing
      order. */
  function KeptIndicesFrom(p: char -> bool, s: string, i: nat): (idx: seq<nat>)
    requires i <= |s|
    ensures forall k :: 0 <= k < |idx| ==> i <= idx[k] < |s|
    ensures forall k, l :: 0 <= k < l < |idx| ==> idx[k] < idx[l]
    ensures forall j :: i <= j < |s| ==> (j in idx <==> p(s[j]))
    decreases |s| - i
  {
    if i == |s| then []
    else (if p(s[i]) then [i] else []) + KeptIndicesFrom(p, s, i + 1)
  }

  /** The positions of `s` whose character passes `p`, in increasing order. */
  function KeptIndices(p: char -> bool, s: string): (idx: seq<nat>)
    ensures forall k :: 0 <= k < |idx| ==> idx[k] < |s|
    ensures forall k, l :: 0 <= k < l < |idx| ==> idx[k] < idx[l]
    ensures forall j :: 0 <= j < |s| ==> (j in idx <==> p(s[j]))
  {
    KeptIndicesFrom(p, s, 0)
  }

  lemma {:induction false} FilterSuffixIsKept(p: char -> bool, s: string, i: nat)
    requires i <= |s|
    ensures |Filter(p, s[i..])| == |KeptIndicesFrom(p, s, i)|
    ensures forall k :: 0 <= k < |Filter(p, s[i..])| ==> Filter(p, s[i..])[k] == s[KeptIndicesFrom(p, s, i)[k]]
    decreases |s| - i
  {
    if i < |s| {
      var f, idx := Filter(p, s[i + 1..]), KeptIndicesFrom(p, s, i + 1);
      assert s[i..][0] == s[i];
      assert s[i..][1..] == s[i + 1..];
      FilterSuffixIsKept(p, s, i + 1);
      if p(s[i]) {
        assert Filter(p, s[i..]) == [s[i]] + f;
        assert KeptIndicesFrom(p, s, i) == [i] + idx;
      } else {
        assert Filter(p, s[i..]) == f;
        assert KeptIndicesFrom(p, s, i) == idx;
      }
    }
  }

  /** `Filter(p, s)` is exactly the in-order subsequence of `s` made of the
      characters that pass `p`: its k-th character is the one at the k-th
      passing position of `s`. */
  lemma FilterIsKeptSubsequence(p: char -> bool, s: string)
    ensures |Filter(p, s)| == |KeptIndices(p, s)|
    ensures forall k :: 0 <= k < |Filter(p, s)| ==> Filter(p, s)[k] == s[KeptIndices(p, s)[k]]
  {
    FilterSuffixIsKept(p, s, 0);
    assert s[0..] == s;
  }

  lemma {:induction false} FilterConcat(p: char -> bool, a: string, b: string)
    ensures Filter(p, a + b) == Filter(p, a) + Filter(p, b)
    decreases |a|
  {
    if a != [] {
      assert (a + b)[0] == a[0];
      assert (a + b)[1..] == a[1..] + b;
      FilterConcat(p, a[1..], b);
    } else {
      assert a + b == b;
    }
  }

  /** A string whose every character passes `p` is left unchanged. */
  lemma {:induction false} FilterAllPass(p: char -> bool, s: string)
    requires forall i :: 0 <= i < |s| ==> p(s[i])
    ensures Filter(p, s) == s
    decreases |s|
  {
    if s != [] {
      FilterAllPass(p, s[1..]);
    }
  }

  /** A string none of whose characters passes `p` filters to nothing. */
  lemma {:induction false} FilterNonePass(p: char -> bool, s: string)
    requires forall i :: 0 <= i < |s| ==> !p(s[i])
    ensures Filter(p, s) == []
    decreases |s|
  {
    if s != [] {
      FilterNonePass(p, s[1..]);
    }
  }

  // ---------------------------------------------------------------------
  // str.lower()
  // ---------------------------------------------------------------------

  /** `s.lower()`: each code point replaced by its lower-case mapping. */
  function Lower(rules: CharRules, s: string): (r: string)
    ensures rules.LowerKeepsLength() ==> |r| == |s|
    ensures forall d :: d in r ==> exists i :: 0 <= i < |s| && d in rules.lower(s[i])
  {
    if s == [] then []
    else
      var rest := s[1..];
      var r := rules.lower(s[0]) + Lower(rules, rest);
      assert forall d :: d in r ==> exists i :: 0 <= i < |s| && d in rules.lower(s[i]) by {
        forall d | d in r
          ensures exists i :: 0 <= i < |s| && d in rules.lower(s[i])
        {
          if d in Lower(rules, rest) {
            var i :| 0 <= i < |rest| && d in rules.lower(rest[i]);
            assert rest[i] == s[i + 1];
          } else {
            assert d in rules.lower(s[0]);
          }
        }
      }
      r
  }

  lemma {:induction false} LowerConcat(rules: CharRules, a: string, b: string)
    ensures Lower(rules, a + b) == Lower(rules, a) + Lower(rules, b)
    decreases |a|
  {
    if a != [] {
      assert (a + b)[0] == a[0];
      assert (a + b)[1..] == a[1..] + b;
      LowerConcat(rules, a[1..], b);
    } else {
      assert a + b == b;
    }
  }

  /** Under an idempotent case mapping every character of a lowered string is
      its own lower case. */
  lemma LowerOutputIsFixed(rules: CharRules, s: string)
    requires rules.LowerIdempotent()
    ensures forall d :: d in Lower(rules, s) ==> rules.lower(d) == [d]
  {
    forall d | d in Lower(rules, s)
      ensures rules.lower(d) == [d]
    {
      var i :| 0 <= i < |s| && d in rules.lower(s[i]);
    }
  }

  /** A string made of characters that are their own lower case is unchanged
      by `lower()`. */
  lemma {:induction false} LowerOfFixed(rules: CharRules, s: string)
    requires forall d :: d in s ==> rules.lower(d) == [d]
    ensures Lower(rules, s) == s
    decreases |s|
  {
    if s != [] {
      assert forall d :: d in s[1..] ==> d in s;
      LowerOfFixed(rules, s[1..]);
      assert s[0] in s;
      assert s == [s[0]] + s[1..];
    }
  }

  /** `s.lower().lower() == s.lower()` for an idempotent case mapping. */
  lemma LowerIdempotentString(rules: CharRules, s: string)
    requires rules.LowerIdempotent()
    ensures Lower(rules, Lower(rules, s)) == Lower(rules, s)
  {
    LowerOutputIsFixed(rules, s);
    LowerOfFixed(rules, Lower(rules, s));
  }

  // ---------------------------------------------------------------------
  // str.strip()
  // ---------------------------------------------------------------------

  /** The number of whitespace characters at the front of `s`. */
  function LeadingSpaces(isSpace: char -> bool, s: string): (n: nat)
    ensures n <= |s|
    ensures forall k :: 0 <= k < n ==> isSpace(s[k])
    ensures n < |s| ==> !isSpace(s[n])
    decreases |s|
  {
    if s == [] || !isSpace(s[0]) then 0 else 1 + LeadingSpaces(isSpace, s[1..])
  }

  /** The number of whitespace characters at the back of `s`. */
  function TrailingSpaces(isSpace: char -> bool, s: string): (n: nat)
    ensures n <= |s|
    ensures forall k :: |s| - n <= k < |s| ==> isSpace(s[k])
    ensures n < |s| ==> !isSpace(s[|s| - 1 - n])
    decreases |s|
  {
    if s == [] || !isSpace(s[|s| - 1]) then 0 else 1 + TrailingSpaces(isSpace, s[..|s| - 1])
  }

  /** `s.strip()`: `s` without its leading and trailing whitespace.  The result
      is the slice of `s` starting after the leading whitespace; everything
      outside it is whitespace; it is empty exactly when `s` is all
      whitespace, and otherwise begins and ends with a non-whitespace
      character. */
  function Strip(isSpace: char -> bool, s: string): (r: string)
    ensures LeadingSpaces(isSpace, s) + |r| <= |s|
    ensures r == s[LeadingSpaces(isSpace, s)..LeadingSpaces(isSpace, s) + |r|]
    ensures forall k :: 0 <= k < LeadingSpaces(isSpace, s) ==> isSpace(s[k])
    ensures forall k :: LeadingSpaces(isSpace, s) + |r| <= k < |s| ==> isSpace(s[k])
    ensures r == [] <==> forall k :: 0 <= k < |s| ==> isSpace(s[k])
    ensures r != [] ==> !isSpace(r[0]) && !isSpace(r[|r| - 1])
  {
    var a := LeadingSpaces(isSpace, s);
    var t := s[a..];
    var b := TrailingSpaces(isSpace, t);
    var r := t[..|t| - b];
    assert forall k :: a + |r| <= k < |s| ==> isSpace(s[k]) by {
      forall k | a + |r| <= k < |s| ensures isSpace(s[k]) {
        assert s[k] == t[k - a];
      }
    }
    r
  }

  /** A string that begins and ends with non-whitespace is its own strip. */
  lemma StripUnpadded(isSpace: char -> bool, s: string)
    requires s != [] && !isSpace(s[0]) && !isSpace(s[|s| - 1])
    ensures Strip(isSpace, s) == s
  {
    assert LeadingSpaces(isSpace, s) == 0;
    assert TrailingSpaces(isSpace, s) == 0;
  }

  /** Stripping twice is stripping once. */
  lemma StripIdempotent(isSpace: char -> bool, s: string)
    ensures Strip(isSpace, Strip(isSpace, s)) == Strip(isSpace, s)
  {
    var r := Strip(isSpace, s);
    var rr := Strip(isSpace, r);
    if r != [] {
      assert LeadingSpaces(isSpace, r) == 0;
      assert TrailingSpaces(isSpace, r) == 0;
    }
  }

  // ---------------------------------------------------------------------
  // str.split() with no separator
  // ---------------------------------------------------------------------

  /** The length of the run of non-whitespace characters at the front of `s`. */
  function WordLength(isSpace: char -> bool, s: string): (n: nat)
    ensures n <= |s|
    ensures forall k :: 0 <= k < n ==> !isSpace(s[k])
    ensures n < |s| ==> isSpace(s[n])
    decreases |s|
  {
    if s == [] || isSpace(s[0]) then 0 else 1 + WordLength(isSpace, s[1..])
  }

  predicate IsWord(isSpace: char -> bool, w: string) {
    w != [] && forall k :: 0 <= k < |w| ==> !isSpace(w[k])
  }

  /** `s.split()`: after any leading whitespace, the longest run of
      non-whitespace characters is the first word, and the rest of the string
      is split the same way; whitespace never produces an empty word.  The
      contract says which inputs give no words; SplitFirstWord,
      SplitKeepsNonSpace and SplitCountsWordStarts describe the words. */
  function Split(isSpace: char -> bool, s: string): (words: seq<string>)
    ensures forall j :: 0 <= j < |words| ==> IsWord(isSpace, words[j])
    ensures words == [] <==> forall k :: 0 <= k < |s| ==> isSpace(s[k])
    decreases |s|
  {
    var a := LeadingSpaces(isSpace, s);
    if a == |s| then []
    else
      var t := s[a..];
      var n := WordLength(isSpace, t);
      assert t[0] == s[a];
      [t[..n]] + Split(isSpace, t[n..])
  }

  /** The run of non-whitespace that starts at `a` ends at whitespace or at
      the end of `s`. */
  lemma WordAt(isSpace: char -> bool, s: string, a: nat)
    requires a < |s|
    ensures var n := WordLength(isSpace, s[a..]);
            && a + n <= |s|
            && s[a..][..n] == s[a..a + n]
            && (a + n < |s| ==> isSpace(s[a + n]))
  {
    var n := WordLength(isSpace, s[a..]);
    if a + n < |s| {
      assert s[a + n] == s[a..][n];
    }
  }

  /** The first word is the whole run of non-whitespace after the leading
      whitespace: it starts there and ends at whitespace or the end. */
  lemma SplitFirstWord(isSpace: char -> bool, s: string)
    requires Split(isSpace, s) != []
    ensures var a := LeadingSpaces(isSpace, s);
            var w := Split(isSpace, s)[0];
            && a + |w| <= |s|
            && w == s[a..a + |w|]
            && (a + |w| < |s| ==> isSpace(s[a + |w|]))
  {
    var a := LeadingSpaces(isSpace, s);
    var n := WordLength(isSpace, s[a..]);
    assert Split(isSpace, s)[0] == s[a..][..n];
    WordAt(isSpace, s, a);
  }

  function Flatten(words: seq<string>): string {
    if words == [] then [] else words[0] + Flatten(words[1..])
  }

  lemma FilterNonSpaceOfLeading(rules: CharRules, a: nat, s: string)
    requires a <= |s|
    requires forall k :: 0 <= k < a ==> rules.isSpace(s[k])
    ensures Filter(rules.NonSpaceTest(), s) == Filter(rules.NonSpaceTest(), s[a..])
  {
    assert s == s[..a] + s[a..];
    FilterConcat(rules.NonSpaceTest(), s[..a], s[a..]);
    FilterNonePass(rules.NonSpaceTest(), s[..a]);
  }

  /** The words of `s.split()`, joined without separators, are exactly the
      non-whitespace characters of `s`: splitting loses nothing but
      whitespace. */
  lemma {:induction false} SplitKeepsNonSpace(rules: CharRules, s: string)
    ensures Flatten(Split(rules.isSpace, s)) == Filter(rules.NonSpaceTest(), s)
    decreases |s|
  {
    var p := rules.NonSpaceTest();
    var a := LeadingSpaces(rules.isSpace, s);
    FilterNonSpaceOfLeading(rules, a, s);
    if a == |s| {
      assert s[a..] == [];
    } else {
      var t := s[a..];
      var n := WordLength(rules.isSpace, t);
      assert t == t[..n] + t[n..];
      FilterConcat(p, t[..n], t[n..]);
      FilterAllPass(p, t[..n]);
      SplitKeepsNonSpace(rules, t[n..]);
      var words := Split(rules.isSpace, s);
      assert words == [t[..n]] + Split(rules.isSpace, t[n..]);
      assert words[1..] == Split(rules.isSpace, t[n..]);
    }
  }

  // ---------------------------------------------------------------------
  // Counting words independently of Split
  // ---------------------------------------------------------------------

  /** Position `i` starts a word: it holds a non-whitespace character that is
      at the front of `s` or follows a whitespace character. */
  predicate StartsWord(isSpace: char -> bool, s: string, i: int) {
    0 <= i < |s| && !isSpace(s[i]) && (i == 0 || isSpace(s[i - 1]))
  }

  /** The number of positions of `s` that start a word. */
  function WordStarts(isSpace: char -> bool, s: string): nat
    decreases |s|
  {
    if s == [] then 0
    else WordStarts(isSpace, s[..|s| - 1]) + (if StartsWord(isSpace, s, |s| - 1) then 1 else 0)
  }

  /** Counting word starts over a concatenation: the two counts add up, less
      one when a word runs across the seam. */
  lemma {:induction false} WordStartsConcat(isSpace: char -> bool, x: string, y: string)
    ensures WordStarts(isSpace, x + y)
         == WordStarts(isSpace, x) + WordStarts(isSpace, y)
            - (if x != [] && y != [] && !isSpace(x[|x| - 1]) && !isSpace(y[0]) then 1 else 0)
    decreases |y|
  {
    if y == [] {
      assert x + y == x;
    } else {
      var y' := y[..|y| - 1];
      var s := x + y;
      assert s[..|s| - 1] == x + y';
      WordStartsConcat(isSpace, x, y');
      if |y| == 1 {
        assert WordStarts(isSpace, y') == 0;
        assert StartsWord(isSpace, y, 0) == !isSpace(y[0]);
        assert x != [] ==> s[|s| - 2] == x[|x| - 1];
      } else {
        assert y'[0] == y[0];
        assert s[|s| - 2] == y[|y| - 2];
        assert StartsWord(isSpace, s, |s| - 1) == StartsWord(isSpace, y, |y| - 1);
      }
    }
  }

  lemma {:induction false} WordStartsAllSpace(isSpace: char -> bool, s: string)
    requires forall k :: 0 <= k < |s| ==> isSpace(s[k])
    ensures WordStarts(isSpace, s) == 0
    decreases |s|
  {
    if s != [] {
      WordStartsAllSpace(isSpace, s[..|s| - 1]);
    }
  }

  lemma {:induction false} WordStartsOneWord(isSpace: char -> bool, w: string)
    requires IsWord(isSpace, w)
    ensures WordStarts(isSpace, w) == 1
    decreases |w|
  {
    if |w| > 1 {
      WordStartsOneWord(isSpace, w[..|w| - 1]);
    }
  }

  /** Leading whitespace starts no word. */
  lemma WordStartsSkipSpaces(isSpace: char -> bool, s: string, a: nat)
    requires a <= |s|
    requires forall k :: 0 <= k < a ==> isSpace(s[k])
    ensures WordStarts(isSpace, s) == WordStarts(isSpace, s[a..])
  {
    assert s == s[..a] + s[a..];
    WordStartsAllSpace(isSpace, s[..a]);
    WordStartsConcat(isSpace, s[..a], s[a..]);
  }

  /** A word at the front, ended by whitespace or by the end of the string,
      starts exactly one word. */
  lemma WordStartsSkipWord(isSpace: char -> bool, t: string, n: nat)
    requires n <= |t| && IsWord(isSpace, t[..n])
    requires n < |t| ==> isSpace(t[n])
    ensures WordStarts(isSpace, t) == 1 + WordStarts(isSpace, t[n..])
  {
    assert t == t[..n] + t[n..];
    WordStartsOneWord(isSpace, t[..n]);
    WordStartsConcat(isSpace, t[..n], t[n..]);
  }

  /** `len(s.split())` counts the positions where a word starts: an
      independent description of the word count. */
  lemma {:induction false} SplitCountsWordStarts(isSpace: char -> bool, s: string)
    ensures |Split(isSpace, s)| == WordStarts(isSpace, s)
    decreases |s|
  {
    var a := LeadingSpaces(isSpace, s);
    WordStartsSkipSpaces(isSpace, s, a);
    if a == |s| {
      assert s[a..] == [];
    } else {
      var t := s[a..];
      var n := WordLength(isSpace, t);
      WordStartsSkipWord(isSpace, t, n);
      SplitCountsWordStarts(isSpace, t[n..]);
    }
  }
}
