/**
 * From a DER signature to its two 32-octet halves (client/security-keys.js):
 * exactly the shortest encodings of non-negative integers below 2^256 pass.
 */
module DerSignature {
  import opened Wrappers
  import opened Bytes

  const HALF := 32

  function Zeros(n: nat): (z: seq<Byte>)
    ensures |z| == n
  {
    if n == 0 then [] else [0] + Zeros(n - 1)
  }

  /** The octets of a half without leading zeros, keeping at least one. */
  function Significant(half: seq<Byte>): (m: seq<Byte>)
    requires half != []
    ensures 1 <= |m| <= |half| && (|m| > 1 ==> m[0] != 0)
  {
    if |half| == 1 || half[0] != 0 then half else Significant(half[1..])
  }

  lemma {:induction false} PaddedSignificant(half: seq<Byte>)
    requires half != []
    ensures half == Zeros(|half| - |Significant(half)|) + Significant(half)
  {
    if |half| > 1 && half[0] == 0 {
      PaddedSignificant(half[1..]);
      var m := Significant(half);
      assert half == [0] + (Zeros(|half| - 1 - |m|) + m);
    }
  }

  /** The shortest two's-complement octets of a non-negative half. */
  function Integer(half: seq<Byte>): (m: seq<Byte>)
    requires half != []
    ensures 1 <= |m| <= |half| + 1
  {
    var m := Significant(half);
    if m[0] >= 0x80 then [0] + m else m
  }

  /** The signature of two halves, in DER. */
  function DerEncode(r: seq<Byte>, s: seq<Byte>): seq<Byte>
    requires |r| == HALF && |s| == HALF
  {
    var a, b := Integer(r), Integer(s);
    [0x30, 4 + |a| + |b|] + ([2, |a|] + a) + ([2, |b|] + b)
  }

  /** The half that an integer's octets stand for, if they are its shortest form. */
  function HalfOf(value: seq<Byte>): Option<seq<Byte>> {
    if !(1 <= |value| <= HALF + 1) || value[0] >= 0x80 then None
    else if value[0] == 0 && |value| > 1 then
      if value[1] < 0x80 then None else Some(Zeros(HALF + 1 - |value|) + value[1..])
    else if |value| > HALF then None
    else Some(Zeros(HALF - |value|) + value)
  }

  lemma {:induction false} SignificantOfPadded(n: nat, m: seq<Byte>)
    requires m != [] && (|m| > 1 ==> m[0] != 0)
    ensures Significant(Zeros(n) + m) == m
  {
    var half := Zeros(n) + m;
    if n > 0 {
      assert half == [0] + (Zeros(n - 1) + m);
      assert half[1..] == Zeros(n - 1) + m;
      SignificantOfPadded(n - 1, m);
    } else {
      assert half == m;
    }
  }

  /** Reading an integer and writing a half undo each other. */
  lemma HalfIffInteger(value: seq<Byte>, half: seq<Byte>)
    requires |half| == HALF
    ensures HalfOf(value) == Some(half) <==> value == Integer(half)
  {
    hide Significant, Zeros;
    var m := Significant(half);
    PaddedSignificant(half);
    if value == Integer(half) {
      if m[0] >= 0x80 {
        assert value[1..] == m;
      }
    }
    if HalfOf(value) == Some(half) {
      if value[0] == 0 && |value| > 1 {
        SignificantOfPadded(HALF + 1 - |value|, value[1..]);
        assert value == [0] + value[1..];
      } else {
        SignificantOfPadded(HALF - |value|, value);
      }
    }
  }

  /** The integer at `start` and the offset behind it. */
  function IntegerAt(der: seq<Byte>, start: nat): Option<(seq<Byte>, nat)> {
    if start + 2 > |der| || der[start] != 2 || start + 2 + der[start + 1] > |der| then None
    else
      var end := start + 2 + der[start + 1];
      match HalfOf(der[start + 2..end]) case None => None case Some(half) => Some((half, end))
  }

  method ReadInteger(der: seq<Byte>, start: nat) returns (result: Option<(seq<Byte>, nat)>)
    requires start <= |der|
    ensures result == IntegerAt(der, start)
  {
    var offset := start;
    if offset + 2 > |der| {
      return None;
    }
    var tag, size := der[offset], der[offset + 1];
    offset := offset + 2;
    if tag != 2 || !(1 <= size <= HALF + 1) || offset + size > |der| {
      return None;
    }
    var value := der[offset..offset + size];
    offset := offset + size;
    if value[0] >= 0x80 {
      return None;
    }
    if value[0] == 0 && |value| > 1 {
      if value[1] < 0x80 {
        return None;
      }
      value := value[1..];
    }
    if |value| > HALF {
      return None;
    }
    return Some((Zeros(HALF - |value|) + value, offset));
  }

  /** What the source returns, by position. */
  function Raw(der: seq<Byte>): Option<seq<Byte>> {
    if !(8 <= |der| <= 72) || der[0] != 0x30 || der[1] != |der| - 2 then None
    else
      match IntegerAt(der, 2)
      case None => None
      case Some((r, middle)) =>
        match IntegerAt(der, middle)
        case None => None
        case Some((s, end)) => if end == |der| then Some(r + s) else None
  }

  lemma HalfLength(value: seq<Byte>)
    ensures HalfOf(value).Some? ==> |HalfOf(value).value| == HALF && value != []
  {
  }

  /** The DER of two halves reads back as those halves. */
  lemma EncodedReads(r: seq<Byte>, s: seq<Byte>)
    requires |r| == HALF && |s| == HALF
    ensures Raw(DerEncode(r, s)) == Some(r + s)
  {
    hide Integer, HalfOf;
    var a, b, der := Integer(r), Integer(s), DerEncode(r, s);
    HalfIffInteger(a, r);
    HalfIffInteger(b, s);
    assert der[4..4 + |a|] == a && der[2] == 2 && der[3] == |a|;
    assert der[6 + |a|..6 + |a| + |b|] == b && der[4 + |a|] == 2 && der[5 + |a|] == |b|;
  }

  /** Whatever is read was the DER of what was read. */
  lemma ReadWasEncoded(der: seq<Byte>)
    requires Raw(der).Some?
    ensures var sig := Raw(der).value;
            |sig| == 2 * HALF && der == DerEncode(sig[..HALF], sig[HALF..])
  {
    hide Integer, HalfOf;
    var (r, middle) := IntegerAt(der, 2).value;
    var (s, end) := IntegerAt(der, middle).value;
    var a, b := der[4..middle], der[middle + 2..end];
    HalfLength(a);
    HalfLength(b);
    HalfIffInteger(a, r);
    HalfIffInteger(b, s);
    assert (r + s)[..HALF] == r && (r + s)[HALF..] == s;
    assert der == [der[0], der[1]] + ([der[2], der[3]] + a) + ([der[middle], der[middle + 1]] + b);
  }

  /**
   * The raw signature of a DER signature: accepted exactly when the input is
   * the DER of the halves returned, and the DER of no two halves is refused.
   */
  method RawSignature(der: seq<Byte>) returns (signature: Option<seq<Byte>>)
    ensures signature.Some? ==> |signature.value| == 2 * HALF
                                && der == DerEncode(signature.value[..HALF], signature.value[HALF..])
    ensures forall r: seq<Byte>, s: seq<Byte> :: |r| == HALF && |s| == HALF && der == DerEncode(r, s) ==>
              signature == Some(r + s)
  {
    hide DerEncode, IntegerAt;
    forall r: seq<Byte>, s: seq<Byte> | |r| == HALF && |s| == HALF && der == DerEncode(r, s)
      ensures Raw(der) == Some(r + s)
    {
      EncodedReads(r, s);
    }
    if Raw(der).Some? {
      ReadWasEncoded(der);
    }
    if !(8 <= |der| <= 72) || der[0] != 0x30 || der[1] != |der| - 2 {
      return None;
    }
    var first := ReadInteger(der, 2);
    if first.None? {
      return None;
    }
    IntegerEnds(der, 2);
    var second := ReadInteger(der, first.value.1);
    if second.None? || second.value.1 != |der| {
      return None;
    }
    return Some(first.value.0 + second.value.0);
  }

  lemma IntegerEnds(der: seq<Byte>, start: nat)
    ensures IntegerAt(der, start).Some? ==> IntegerAt(der, start).value.1 <= |der|
  {
  }
}
