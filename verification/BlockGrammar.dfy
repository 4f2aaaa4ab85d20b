/** Exactly which bytes DecodeEntry accepts as the head of a block entry (table/block.cc). */
module BlockGrammar {
  import opened Options
  import opened Bytes
  import opened Varints
  import opened Coding
  import opened WireFormat
  import opened Grammars
  import opened BlockFormat

  /** The shared, the unshared and the value length, each a varint of at most five bytes. */
  ghost predicate IsHead(b: Text, d: Decoded) {
    exists x: Text, y: Text, z: Text ::
      IsWord32(x, d.shared) && IsWord32(y, d.unshared) && IsWord32(z, d.length) && b == x + (y + z) && d.header == |b|
  }

  lemma Three(x: Text, y: Text, z: Text, rest: Text)
    ensures x + (y + z) + rest == x + (y + (z + rest))
  {
    Assoc(x, y + z, rest);
    Assoc(y, z, rest);
  }

  lemma HeadIsRead(b: Text, d: Decoded) returns (h: Text, rest: Text)
    requires DecodeVarints(b) == Some(d)
    ensures IsHead(h, d) && b == h + rest
  {
    var b1 := GetVarint32(b).rest;
    var b2 := GetVarint32(b1).rest;
    rest := GetVarint32(b2).rest;
    Word32Iff(b, d.shared, b1);
    Word32Iff(b1, d.unshared, b2);
    Word32Iff(b2, d.length, rest);
    var x: Text :| IsWord32(x, d.shared) && b == x + b1;
    var y: Text :| IsWord32(y, d.unshared) && b1 == y + b2;
    var z: Text :| IsWord32(z, d.length) && b2 == z + rest;
    h := x + (y + z);
    Three(x, y, z, rest);
    assert |b| == |h| + |rest|;
  }

  lemma ReadsHead(h: Text, d: Decoded, rest: Text)
    requires IsHead(h, d)
    ensures DecodeVarints(h + rest) == Some(d)
  {
    var x: Text, y: Text, z: Text :|
      IsWord32(x, d.shared) && IsWord32(y, d.unshared) && IsWord32(z, d.length) && h == x + (y + z) && d.header == |h|;
    Three(x, y, z, rest);
    Word32Iff(x + (y + (z + rest)), d.shared, y + (z + rest));
    Word32Iff(y + (z + rest), d.unshared, z + rest);
    Word32Iff(z + rest, d.length, rest);
  }

  /** A byte below 128 is a word. */
  lemma ShortWord(b: Text)
    requires b != [] && b[0] < 128
    ensures GetVarint32(b) == Got(b[0], b[1..])
  {
    var w: Text := [b[0]];
    assert b == w + b[1..] && w[1..] == [];
    Varint32Reads(w, b[1..]);
  }

  /** The fast path for three short lengths reads what the slow one reads. */
  lemma FastIsSlow(b: Text)
    requires |b| >= 3
    ensures Lengths(b) == DecodeVarints(b)
  {
    if b[0] < 128 && b[1] < 128 && b[2] < 128 {
      ShortWord(b);
      ShortWord(b[1..]);
      ShortWord(b[2..]);
      assert b[1..][1..] == b[2..] && b[2..][1..] == b[3..];
    }
  }

  /** DecodeEntry accepts exactly what has three lengths in front, at least three bytes in all, and as many bytes
      behind them as the unshared key and the value take, counted in 32 bits. */
  lemma EntryIff(b: Text, d: Decoded)
    ensures DecodeEntry(b) == Some(d)
       <==> |b| >= 3 && exists h: Text, rest: Text ::
              IsHead(h, d) && b == h + rest && |rest| >= (d.unshared + d.length) % TWO32
  {
    if |b| >= 3 {
      FastIsSlow(b);
      if DecodeEntry(b) == Some(d) {
        var h, rest := HeadIsRead(b, d);
        assert |b| == |h| + |rest|;
      }
      forall h: Text, rest: Text | IsHead(h, d) && b == h + rest && |rest| >= (d.unshared + d.length) % TWO32
        ensures DecodeEntry(b) == Some(d)
      {
        ReadsHead(h, d, rest);
      }
    }
  }
}
