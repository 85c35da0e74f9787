/**
 * `DrmCtm::to_xrandr_cli`: the nine 64-bit words, read as eighteen 32-bit
 * words, printed in decimal and joined with commas. This is the value given
 * to `xrandr --set CTM`.
 *
 * The source reads the `xrandr: [u32; 18]` member of a union that was
 * written through its `linux: [u64; 9]` member. On a little-endian host
 * that gives, for each word, its low half and then its high half. The model
 * computes the halves with `%` and `/`, so it does not depend on byte order.
 */
module Xrandr {
  import opened Wrappers
  import opened FixedPoint
  import opened Text

  type U32 = n: nat | n < 0x1_0000_0000

  /** Bits 0-31 of a word. */
  function Low(w: U64): (lo: U32)
    ensures w < TWO_32 ==> lo == w
  {
    w % TWO_32
  }

  /** Bits 32-63 of a word; with the low half it makes up the word. */
  function High(w: U64): (hi: U32)
    ensures Low(w) + TWO_32 * hi == w
  {
    w / TWO_32
  }

  /** Each word's low half followed by its high half, word after word. */
  function Halves(ws: seq<U64>): (ts: seq<U32>)
    ensures |ts| == 2 * |ws|
  {
    if ws == [] then [] else [Low(ws[0]), High(ws[0])] + Halves(ws[1..])
  }

  /** Each pair of halves joined into a word, low half first; the inverse of `Halves`. */
  function Pairs(ts: seq<U32>): (ws: seq<U64>)
    requires |ts| % 2 == 0
    ensures 2 * |ws| == |ts|
  {
    if ts == [] then [] else [ts[0] + TWO_32 * ts[1]] + Pairs(ts[2..])
  }

  /** A low and a high half are recovered from the word they make up. */
  lemma HalvesOfWord(lo: U32, hi: U32)
    ensures Low(lo + TWO_32 * hi) == lo && High(lo + TWO_32 * hi) == hi
  {
    var w := lo + TWO_32 * hi;
    var q, r := w / TWO_32, w % TWO_32;
    assert w == TWO_32 * q + r && 0 <= r < TWO_32;
    assert TWO_32 * (q - hi) == lo - r;
  }

  /** Half `2i` is the low half of word `i` and half `2i + 1` its high half. */
  lemma {:induction false} HalvesAt(ws: seq<U64>, i: nat)
    requires i < |ws|
    ensures Halves(ws)[2 * i] == Low(ws[i]) && Halves(ws)[2 * i + 1] == High(ws[i])
  {
    if i > 0 {
      HalvesAt(ws[1..], i - 1);
    }
  }

  lemma {:induction false} PairsOfHalves(ws: seq<U64>)
    ensures Pairs(Halves(ws)) == ws
  {
    if ws != [] {
      var ts := Halves(ws);
      assert ts[2..] == Halves(ws[1..]);
      PairsOfHalves(ws[1..]);
      assert ws == [ws[0]] + ws[1..];
    }
  }

  lemma {:induction false} HalvesOfPairs(ts: seq<U32>)
    requires |ts| % 2 == 0
    ensures Halves(Pairs(ts)) == ts
  {
    if ts != [] {
      var ws := Pairs(ts);
      HalvesOfWord(ts[0], ts[1]);
      assert ws[1..] == Pairs(ts[2..]);
      HalvesOfPairs(ts[2..]);
      assert ts == [ts[0], ts[1]] + ts[2..];
    }
  }

  /**
   * The `xrandr` view of the union: eighteen 32-bit words such that words
   * `2i` and `2i + 1` are the low and high halves of 64-bit word `i`.
   */
  function XrandrWords(d: DrmCtm): (ts: seq<U32>)
    ensures |ts| == 18
    ensures forall i :: 0 <= i < 9 ==> ts[2 * i] + TWO_32 * ts[2 * i + 1] == d[i]
  {
    var ts := Halves(d);
    assert forall i :: 0 <= i < 9 ==> ts[2 * i] + TWO_32 * ts[2 * i + 1] == d[i] by {
      forall i | 0 <= i < 9
        ensures ts[2 * i] + TWO_32 * ts[2 * i + 1] == d[i]
      {
        HalvesAt(d, i);
      }
    }
    ts
  }

  /** The `linux` view of eighteen 32-bit words. */
  function LinuxWords(ts: seq<U32>): DrmCtm
    requires |ts| == 18
  {
    Pairs(ts)
  }

  /** Writing nine words and reading them back through the `linux` member gives them back. */
  lemma LinuxOfXrandr(d: DrmCtm)
    ensures LinuxWords(XrandrWords(d)) == d
  {
    PairsOfHalves(d);
  }

  /** Writing eighteen words and reading them back through the `xrandr` member gives them back. */
  lemma XrandrOfLinux(ts: seq<U32>)
    requires |ts| == 18
    ensures XrandrWords(LinuxWords(ts)) == ts
  {
    HalvesOfPairs(ts);
  }

  /**
   * `map(|n| n.to_string())` over the eighteen 32-bit words: eighteen
   * canonical decimal tokens, token `k` printed from 32-bit word `k`.
   */
  function Tokens(d: DrmCtm): (tokens: seq<string>)
    ensures |tokens| == 18
    ensures forall k :: 0 <= k < 18 ==> IsCanonical(tokens[k])
  {
    var ts := XrandrWords(d);
    seq(18, k requires 0 <= k < 18 => ToDecimal(ts[k]))
  }

  /**
   * `DrmCtm::to_xrandr_cli`. The string splits at its commas into exactly
   * eighteen tokens, token `k` being the decimal text of 32-bit word `k`.
   */
  function ToXrandrCli(d: DrmCtm): (s: string)
    ensures |Split(s, ',')| == 18
    ensures forall k :: 0 <= k < 18 ==> Split(s, ',')[k] == ToDecimal(XrandrWords(d)[k])
  {
    var tokens := Tokens(d);
    SplitJoin(tokens, ',');
    Join(tokens, ',')
  }

  /** A token that `to_string` could have printed for a `u32`. */
  predicate IsU32Token(t: string)
  {
    IsCanonical(t) && FromDecimal(t) < TWO_32
  }

  /**
   * Reads an `xrandr --set CTM` value back into nine words: exactly eighteen
   * comma-separated canonical decimal tokens, each below 2^32.
   */
  function ParseXrandrCli(s: string): Option<DrmCtm>
  {
    var tokens := Split(s, ',');
    if |tokens| == 18 && forall k :: 0 <= k < 18 ==> IsU32Token(tokens[k]) then
      Some(LinuxWords(seq(18, k requires 0 <= k < 18 => FromDecimal(tokens[k]) as U32)))
    else
      None
  }

  /** The serialised value parses back to the original nine words. */
  lemma XrandrCliRoundTrip(d: DrmCtm)
    ensures ParseXrandrCli(ToXrandrCli(d)) == Some(d)
  {
    var ts := XrandrWords(d);
    var tokens := Split(ToXrandrCli(d), ',');
    forall k | 0 <= k < 18
      ensures IsU32Token(tokens[k]) && FromDecimal(tokens[k]) == ts[k]
    {
      DecimalRoundTrip(ts[k]);
    }
    assert seq(18, k requires 0 <= k < 18 => FromDecimal(tokens[k]) as U32) == ts;
    LinuxOfXrandr(d);
  }

  /** The only string that parses to some nine words is their serialisation. */
  lemma ParseIsExact(s: string, d: DrmCtm)
    requires ParseXrandrCli(s) == Some(d)
    ensures s == ToXrandrCli(d)
  {
    var tokens := Split(s, ',');
    var ts := seq(18, k requires 0 <= k < 18 => FromDecimal(tokens[k]) as U32);
    assert d == LinuxWords(ts);
    XrandrOfLinux(ts);
    forall k | 0 <= k < 18
      ensures tokens[k] == Tokens(d)[k]
    {
      CanonicalRoundTrip(tokens[k]);
    }
    assert tokens == Tokens(d);
    JoinSplit(s, ',');
  }
}
