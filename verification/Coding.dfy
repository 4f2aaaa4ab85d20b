/** Varints of at most five bytes and strings with their length in front (util/coding.cc). */
module Coding {
  import opened Options
  import opened Bytes
  import opened Varints

  /** GetVarint32Ptr. */
  function GetVarint32(input: seq<Byte>): (r: Outcome)
    ensures r.Got? ==> |r.rest| < |input|
  {
    ReadLoop(PlainLoop(TWO32, 35), input, 0, 0)
  }

  /** PutVarint32 and GetVarint32Ptr. */
  lemma Varint32RoundTrip(v: nat, rest: seq<Byte>)
    requires v < TWO32
    ensures GetVarint32(Varint(v) + rest) == Got(v, rest)
  {
    WordSizes();
    Pow2Grows(32, 35);
    PlainRoundTrip(TWO32, 35, v, rest);
  }

  /** PutLengthPrefixedSlice. */
  function Prefixed(t: Text): Text {
    Varint(|t|) + t
  }

  /** GetLengthPrefixedSlice. */
  function GetPrefixed(input: Text): (r: Option<Parsed<Text>>)
    ensures r.Some? ==> |r.value.rest| < |input|
  {
    match GetVarint32(input)
    case Got(n, rest) => if n <= |rest| then Some(Parsed(rest[..n], rest[n..])) else None
    case _ => None
  }

  lemma PrefixedRead(t: Text, rest: Text)
    requires |t| < TWO32
    ensures GetPrefixed(Prefixed(t) + rest) == Some(Parsed(t, rest))
  {
    Varint32RoundTrip(|t|, t + rest);
    assert Prefixed(t) + rest == Varint(|t|) + (t + rest);
    assert (t + rest)[..|t|] == t && (t + rest)[|t|..] == rest;
  }
}
