/** The words and strings of LevelDB's records as a grammar on bytes (util/coding.cc): what a reader accepts, and
    nothing else, on any input. */
module Grammars {
  import opened Options
  import opened Bytes
  import opened Varints
  import opened Coding
  import opened WireFormat

  /** A varint of at most five bytes, of which 32 bits count. */
  predicate IsWord32(b: Text, v: nat) {
    IsVarint(b) && |b| <= 5 && v == Digits(b) % TWO32
  }

  /** A varint of at most ten bytes, of which 64 bits count. */
  predicate IsWord64(b: Text, v: nat) {
    IsVarint(b) && |b| <= 10 && v == Digits(b) % TWO64
  }

  /** A length and as many bytes. */
  ghost predicate IsString(b: Text, s: Text) {
    exists n: Text :: IsWord32(n, |s|) && b == n + s
  }

  /** GetVarint32 reads exactly the words of 32 bits. */
  lemma Word32Iff(input: Text, v: nat, rest: Text)
    ensures GetVarint32(input) == Got(v, rest) <==> exists b: Text :: IsWord32(b, v) && input == b + rest
  {
    if GetVarint32(input) == Got(v, rest) {
      var b, rest' := CutVarint(input);
      if IsVarint(b) {
        Varint32Reads(b, rest');
        assert IsWord32(b, v) && input == b + rest;
      } else {
        assert b + [] == b;
        Varint32Unfinished(b);
      }
    }
    forall b: Text | IsWord32(b, v) && input == b + rest ensures GetVarint32(input) == Got(v, rest) {
      Varint32Reads(b, rest);
    }
  }

  /** GetVarint64 reads exactly the words of 64 bits. */
  lemma Word64Iff(input: Text, v: nat, rest: Text)
    ensures ReadLoop(PlainLoop(TWO64, 64), input, 0, 0) == Got(v, rest)
       <==> exists b: Text :: IsWord64(b, v) && input == b + rest
  {
    if ReadLoop(PlainLoop(TWO64, 64), input, 0, 0) == Got(v, rest) {
      var b, rest' := CutVarint(input);
      if IsVarint(b) {
        LevelVarint64Reads(b, rest');
        assert IsWord64(b, v) && input == b + rest;
      } else {
        assert b + [] == b;
        LevelVarint64Unfinished(b);
      }
    }
    forall b: Text | IsWord64(b, v) && input == b + rest
      ensures ReadLoop(PlainLoop(TWO64, 64), input, 0, 0) == Got(v, rest)
    {
      LevelVarint64Reads(b, rest);
    }
  }

  lemma LevelVarint64Reads(b: Text, rest: Text)
    requires IsVarint(b)
    ensures var r := ReadLoop(PlainLoop(TWO64, 64), b + rest, 0, 0);
            if |b| <= 10 then r == Got(Digits(b) % TWO64, rest) else r.TooLong?
  {
    RoomyWords();
    PlainReads(TWO64, 64, b, rest, 0, 0);
    assert Pow2(0) == 1;
  }

  lemma LevelVarint64Unfinished(b: Text)
    requires AllGoOn(b)
    ensures !ReadLoop(PlainLoop(TWO64, 64), b, 0, 0).Got?
  {
    PlainUnfinished(TWO64, 64, b, 0, 0);
  }

  /** GetLengthPrefixedSlice reads exactly the strings. */
  lemma StringIff(input: Text, s: Text, rest: Text)
    ensures GetPrefixed(input) == Some(Parsed(s, rest)) <==> exists b: Text :: IsString(b, s) && input == b + rest
  {
    if GetPrefixed(input) == Some(Parsed(s, rest)) {
      var o := GetVarint32(input);
      Word32Iff(input, o.value, o.rest);
      var n: Text :| IsWord32(n, o.value) && input == n + o.rest;
      assert o.rest == s + rest && |s| == o.value;
      assert IsString(n + s, s);
      Assoc(n, s, rest);
    }
    forall b: Text | IsString(b, s) && input == b + rest ensures GetPrefixed(input) == Some(Parsed(s, rest)) {
      var n: Text :| IsWord32(n, |s|) && b == n + s;
      Assoc(n, s, rest);
      Word32Iff(input, |s|, s + rest);
      assert (s + rest)[..|s|] == s && (s + rest)[|s|..] == rest;
    }
  }
}
