/** Keras `pad_sequences` with its default arguments, as app.py:204 calls it:
    zeros are added at the front (`padding='pre'`) and a long sequence loses
    its first tokens (`truncating='pre'`). */
module Padding {

  /** The window length the model was trained on (`maxlen=100`). */
  const Window: nat := 100

  function Zeros(n: nat): (z: seq<int>)
    ensures |z| == n
    ensures forall i :: 0 <= i < n ==> z[i] == 0
  {
    seq(n, _ => 0)
  }

  /** `pad_sequences([tokens], maxlen)[0]`: exactly `maxlen` positions, right
      aligned, so that position k holds the token that ends up k places
      from the right end, and zero where the tokens ran out. */
  function Pad(tokens: seq<int>, maxlen: nat): (r: seq<int>)
    ensures |r| == maxlen
    ensures forall k :: 0 <= k < maxlen ==>
              r[k] == if k + |tokens| < maxlen then 0 else tokens[k + |tokens| - maxlen]
  {
    if |tokens| <= maxlen then Zeros(maxlen - |tokens|) + tokens
    else tokens[|tokens| - maxlen..]
  }

  /** A sequence that fits is kept whole, behind `maxlen - n` zeros. */
  lemma PadShort(tokens: seq<int>, maxlen: nat)
    requires |tokens| <= maxlen
    ensures Pad(tokens, maxlen) == Zeros(maxlen - |tokens|) + tokens
  {
    var r := Pad(tokens, maxlen);
    var e := Zeros(maxlen - |tokens|) + tokens;
    forall k | 0 <= k < maxlen ensures r[k] == e[k] {}
  }

  /** A sequence that does not fit keeps only its last `maxlen` tokens. */
  lemma PadLong(tokens: seq<int>, maxlen: nat)
    requires |tokens| > maxlen
    ensures Pad(tokens, maxlen) == tokens[|tokens| - maxlen..]
  {
    var r := Pad(tokens, maxlen);
    var e := tokens[|tokens| - maxlen..];
    forall k | 0 <= k < maxlen ensures r[k] == e[k] {}
  }

  /** No tokens at all give an all-zero window. */
  lemma PadEmpty(maxlen: nat)
    ensures Pad([], maxlen) == Zeros(maxlen)
  {
    PadShort([], maxlen);
  }

  /** Padding a window that already has the right length changes nothing, so
      padding twice is padding once. */
  lemma PadIdempotent(tokens: seq<int>, maxlen: nat)
    ensures Pad(Pad(tokens, maxlen), maxlen) == Pad(tokens, maxlen)
  {
    var r := Pad(tokens, maxlen);
    PadShort(r, maxlen);
    assert Zeros(0) + r == r;
  }

  /** Only the last `maxlen` tokens matter: two sequences that end the same
      way pad to the same window. */
  lemma PadKeepsLastTokens(a: seq<int>, b: seq<int>, maxlen: nat)
    requires |a| >= maxlen && |b| >= maxlen
    requires a[|a| - maxlen..] == b[|b| - maxlen..]
    ensures Pad(a, maxlen) == Pad(b, maxlen)
  {
    var ra := Pad(a, maxlen);
    var rb := Pad(b, maxlen);
    forall k | 0 <= k < maxlen ensures ra[k] == rb[k] {
      assert a[|a| - maxlen..][k] == b[|b| - maxlen..][k];
    }
  }
}
