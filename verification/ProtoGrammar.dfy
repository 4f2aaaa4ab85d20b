/** Exactly which bytes nanopb accepts as a number, a scalar, a packed array or a field to be skipped (pb_decode.c). */
module ProtoGrammar {
  import opened Options
  import opened Bytes
  import opened Varints
  import opened WireFormat
  import opened ProtoWire
  import opened ProtoBytes
  import opened ProtoMessages

  // ----- numbers -----

  /** The reader of 32-bit numbers takes all of these bytes.  WireFormat says which numbers those are. */
  predicate IsNumber32(b: seq<Byte>, v: nat) {
    ReadVarint32(b) == Ok(Parsed(v, []))
  }

  lemma {:induction false} LoopIsLocal(loop: Loop, b: seq<Byte>, rest: seq<Byte>, bitpos: nat, result: nat)
    requires var r := ReadLoop(loop, b, bitpos, result); r.Got? && r.rest == []
    ensures ReadLoop(loop, b + rest, bitpos, result) == Got(ReadLoop(loop, b, bitpos, result).value, rest)
    decreases |b|
  {
    assert (b + rest)[0] == b[0] && (b + rest)[1..] == b[1..] + rest;
    var t := loop.turn(b[0], bitpos, result);
    if t.More? { LoopIsLocal(loop, b[1..], rest, t.bitpos, t.result); }
    if t.Last? { assert b[1..] + rest == rest; }
  }

  lemma {:induction false} LoopPrefix(loop: Loop, input: seq<Byte>, bitpos: nat, result: nat) returns (b: seq<Byte>)
    requires ReadLoop(loop, input, bitpos, result).Got?
    ensures var r := ReadLoop(loop, input, bitpos, result);
            b != [] && input == b + r.rest && ReadLoop(loop, b, bitpos, result) == Got(r.value, [])
    decreases |input|
  {
    var t := loop.turn(input[0], bitpos, result);
    b := [input[0]];
    if t.More? {
      var c := LoopPrefix(loop, input[1..], t.bitpos, t.result);
      b := [input[0]] + c;
      assert b[1..] == c;
    } else {
      assert b[1..] == [];
    }
  }

  lemma Number32Reads(b: seq<Byte>, v: nat, rest: seq<Byte>)
    requires IsNumber32(b, v)
    ensures ReadVarint32(b + rest) == Ok(Parsed(v, rest)) && b != []
  {
    assert (b + rest)[0] == b[0] && (b + rest)[1..] == b[1..] + rest;
    if b[0] >= 128 { LoopIsLocal(LOOP32, b[1..], rest, 7, b[0] % 128); } else { assert b[1..] + rest == rest; }
  }

  lemma Number32Taken(input: seq<Byte>) returns (b: seq<Byte>)
    requires ReadVarint32(input).Ok?
    ensures var p := ReadVarint32(input).value; IsNumber32(b, p.value) && input == b + p.rest
  {
    if input[0] < 128 {
      b := [input[0]];
      assert b[1..] == [];
    } else {
      var c := LoopPrefix(LOOP32, input[1..], 7, input[0] % 128);
      b := [input[0]] + c;
      assert b[1..] == c;
    }
  }

  /** A length and that many bytes. */
  ghost predicate IsDelimited(b: seq<Byte>, s: seq<Byte>) {
    exists n: seq<Byte> :: IsNumber32(n, |s|) && b == n + s
  }

  lemma DelimitedReads(b: seq<Byte>, s: seq<Byte>, rest: seq<Byte>)
    requires IsDelimited(b, s)
    ensures ReadVarint32(b + rest) == Ok(Parsed(|s|, s + rest)) && (s + rest)[..|s|] == s && (s + rest)[|s|..] == rest
  {
    var n: seq<Byte> :| IsNumber32(n, |s|) && b == n + s;
    Number32Reads(n, |s|, s + rest);
    Assoc(n, s, rest);
  }

  lemma DelimitedIsTaken(input: seq<Byte>) returns (b: seq<Byte>)
    requires var r := ReadVarint32(input); r.Ok? && r.value.value <= |r.value.rest|
    ensures var p := ReadVarint32(input).value;
            IsDelimited(b, p.rest[..p.value]) && input == b + p.rest[p.value..]
  {
    var p := ReadVarint32(input).value;
    var n := Number32Taken(input);
    b := n + p.rest[..p.value];
    Delimit(n, p.rest, p.value);
  }

  lemma Delimit(n: seq<Byte>, rest: seq<Byte>, v: nat)
    requires IsNumber32(n, v) && v <= |rest|
    ensures IsDelimited(n + rest[..v], rest[..v]) && n + rest == n + rest[..v] + rest[v..]
  {
    assert rest == rest[..v] + rest[v..];
    Assoc(n, rest[..v], rest[v..]);
  }

  // ----- scalars -----

  ghost predicate IsScalar(s: Scalar, b: seq<Byte>, v: Value) {
    match s
    case Bool => exists n :: IsNumber32(b, n) && v == B(n != 0)
    case Fixed32 => |b| == 4 && v == I(FromLittle(b))
    case Fixed64 => |b| == 8 && v == I(FromLittle(b))
    case _ =>
      IsVarint(b) && |b| <= 10 && Meant(s, Digits(b) % TWO64).Some? && v == I(Meant(s, Digits(b) % TWO64).value)
  }

  /** The values of a packed array, one after the other. */
  ghost predicate IsPacked(s: Scalar, b: seq<Byte>, vs: seq<Value>)
    decreases |vs|
  {
    if vs == [] then b == []
    else exists c: seq<Byte>, rest: seq<Byte> :: IsScalar(s, c, vs[0]) && IsPacked(s, rest, vs[1..]) && b == c + rest
  }

  lemma MeantFits(s: Scalar, u: nat)
    requires u < TWO64 && Meant(s, u).Some?
    ensures ScalarOk(s, I(Meant(s, u).value))
  {
  }

  lemma ScalarReads(s: Scalar, b: seq<Byte>, v: Value, rest: seq<Byte>)
    requires IsScalar(s, b, v)
    ensures DecScalar(s, b + rest) == Ok(Parsed(v, rest)) && b != []
  {
    if s.Bool? {
      var n :| IsNumber32(b, n) && v == B(n != 0);
      Number32Reads(b, n, rest);
    } else if s.Fixed32? || s.Fixed64? {
      assert (b + rest)[..|b|] == b && (b + rest)[|b|..] == rest;
    } else {
      NumberReads(s, b, rest);
    }
  }

  lemma ScalarTaken(s: Scalar, input: seq<Byte>) returns (b: seq<Byte>)
    requires DecScalar(s, input).Ok?
    ensures var p := DecScalar(s, input).value; IsScalar(s, b, p.value) && ScalarOk(s, p.value) && input == b + p.rest
  {
    if s.Bool? {
      b := Number32Taken(input);
    } else if s.Fixed32? || s.Fixed64? {
      b := input[..if s.Fixed32? then 4 else 8];
      LittleOfBytes(b);
      assert Pow256(4) == TWO32 && Pow256(8) == TWO64;
    } else {
      var rest: seq<Byte>;
      b, rest := CutVarint(input);
      if IsVarint(b) {
        NumberReads(s, b, rest);
        MeantFits(s, Digits(b) % TWO64);
      } else {
        assert b + [] == b;
        Varint64Unfinished(b);
      }
    }
  }

  lemma OnePacked(s: Scalar, c: seq<Byte>, v: Value, rest: seq<Byte>, before: seq<Value>, max: nat)
    requires IsScalar(s, c, v)
    ensures DecItems(s, c + rest, before, max)
         == if |before| >= max then Err(ArrayOverflow) else DecItems(s, rest, before + [v], max)
  {
    ScalarReads(s, c, v, rest);
  }

  lemma FirstPacked(s: Scalar, b: seq<Byte>, vs: seq<Value>, before: seq<Value>, max: nat) returns (rest: seq<Byte>)
    requires IsPacked(s, b, vs) && vs != []
    ensures IsPacked(s, rest, vs[1..])
    ensures DecItems(s, b, before, max)
         == if |before| >= max then Err(ArrayOverflow) else DecItems(s, rest, before + [vs[0]], max)
  {
    var c: seq<Byte>, more: seq<Byte> :| IsScalar(s, c, vs[0]) && IsPacked(s, more, vs[1..]) && b == c + more;
    OnePacked(s, c, vs[0], more, before, max);
    rest := more;
  }

  lemma {:induction false} PackedReads(s: Scalar, b: seq<Byte>, vs: seq<Value>, before: seq<Value>, max: nat)
    requires IsPacked(s, b, vs)
    ensures DecItems(s, b, before, max)
         == if vs != [] && |before| + |vs| > max then Err(ArrayOverflow) else Ok(before + vs)
    decreases |vs|
  {
    if vs == [] {
      assert before + vs == before;
    } else {
      var rest := FirstPacked(s, b, vs, before, max);
      if |before| < max {
        PackedReads(s, rest, vs[1..], before + [vs[0]], max);
        assert before + [vs[0]] + vs[1..] == before + vs;
      }
    }
  }

  lemma {:induction false} PackedTaken(s: Scalar, input: seq<Byte>, before: seq<Value>, max: nat)
    returns (vs: seq<Value>)
    requires DecItems(s, input, before, max).Ok?
    ensures IsPacked(s, input, vs) && forall i | 0 <= i < |vs| :: ScalarOk(s, vs[i])
    decreases |input|
  {
    vs := [];
    if input != [] {
      var p := DecScalar(s, input).value;
      var c := ScalarTaken(s, input);
      var more := PackedTaken(s, p.rest, before + [p.value], max);
      vs := [p.value] + more;
      assert vs[1..] == more;
    }
  }

  // ----- fields that the descriptor does not know -----

  ghost predicate IsSkipped(wireType: nat, b: seq<Byte>) {
    match wireType
    case 0 => IsVarint(b)
    case 1 => |b| == 8
    case 2 => exists s: seq<Byte> :: IsDelimited(b, s)
    case 5 => |b| == 4
    case _ => false
  }

  lemma {:induction false} VarintSkipped(b: seq<Byte>, rest: seq<Byte>)
    ensures IsVarint(b) ==> SkipVarint(b + rest) == Ok(rest)
    ensures AllGoOn(b) ==> SkipVarint(b).Err?
    decreases |b|
  {
    if b != [] {
      assert (b + rest)[0] == b[0] && (b + rest)[1..] == b[1..] + rest;
      VarintSkipped(b[1..], rest);
      if |b| == 1 { assert b[1..] + rest == rest; }
      if |b| > 1 && IsVarint(b) { VarintTail(b); }
    }
  }

  lemma SkippedReads(wireType: nat, b: seq<Byte>, rest: seq<Byte>)
    requires IsSkipped(wireType, b)
    ensures Skip(wireType, b + rest) == Ok(rest) && b != []
  {
    if wireType == 0 {
      VarintSkipped(b, rest);
    } else if wireType == 2 {
      var s: seq<Byte> :| IsDelimited(b, s);
      DelimitedReads(b, s, rest);
      var n: seq<Byte> :| IsNumber32(n, |s|) && b == n + s;
      Number32Reads(n, |s|, []);
    } else {
      assert (b + rest)[|b|..] == rest;
    }
  }

  lemma SkippedTaken(wireType: nat, input: seq<Byte>) returns (b: seq<Byte>)
    requires Skip(wireType, input).Ok?
    ensures IsSkipped(wireType, b) && input == b + Skip(wireType, input).value
  {
    if wireType == 0 {
      var rest: seq<Byte>;
      b, rest := CutVarint(input);
      VarintSkipped(b, rest);
      assert b + [] == b;
    } else if wireType == 2 {
      b := DelimitedIsTaken(input);
      var p := ReadVarint32(input).value;
      assert IsDelimited(b, p.rest[..p.value]);
    } else {
      b := input[..if wireType == 1 then 8 else 4];
    }
  }
}
