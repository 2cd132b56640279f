/** The byte layer under every frame codec (src/private-v2.js). */
module Bytes {
  type Byte = x: int | 0 <= x < 256

  function Pow256(n: nat): (p: nat)
    ensures p > 0
  {
    if n == 0 then 1 else 256 * Pow256(n - 1)
  }

  /** The `width` big-endian octets of `value`, dropping anything above them. */
  function BigEndian(width: nat, value: nat): (s: seq<Byte>)
    ensures |s| == width
  {
    if width == 0 then [] else BigEndian(width - 1, value / 256) + [value % 256]
  }

  function FromBigEndian(s: seq<Byte>): nat {
    if s == [] then 0 else 256 * FromBigEndian(s[..|s| - 1]) + s[|s| - 1]
  }

  lemma {:induction false} ReadsWhatWasWritten(width: nat, value: nat)
    requires value < Pow256(width)
    ensures FromBigEndian(BigEndian(width, value)) == value
  {
    if width > 0 {
      ReadsWhatWasWritten(width - 1, value / 256);
      var s := BigEndian(width, value);
      assert s[..|s| - 1] == BigEndian(width - 1, value / 256);
    }
  }

  lemma {:induction false} WritesWhatWasRead(s: seq<Byte>)
    ensures FromBigEndian(s) < Pow256(|s|)
    ensures BigEndian(|s|, FromBigEndian(s)) == s
  {
    if s != [] {
      var front := s[..|s| - 1];
      WritesWhatWasRead(front);
      assert FromBigEndian(s) / 256 == FromBigEndian(front);
      assert s == front + [s[|s| - 1]];
    }
  }

  lemma BigEndianInjective(width: nat, a: nat, b: nat)
    requires a < Pow256(width) && b < Pow256(width)
    requires BigEndian(width, a) == BigEndian(width, b)
    ensures a == b
  {
    ReadsWhatWasWritten(width, a);
    ReadsWhatWasWritten(width, b);
  }

  lemma Widths()
    ensures Pow256(1) == 0x100 && Pow256(2) == 0x1_0000 && Pow256(4) == 0x1_0000_0000
    ensures Pow256(8) == 0x1_0000_0000_0000_0000
  {
    assert Pow256(3) == 256 * Pow256(2);
    assert Pow256(5) == 256 * Pow256(4);
    assert Pow256(6) == 256 * Pow256(5);
    assert Pow256(7) == 256 * Pow256(6);
  }

  /** Shift-and-mask form of the source; the contract says it is the big-endian layout. */
  function Uint16Bytes(value: nat): (s: seq<Byte>)
    requires value <= 0xffff
    ensures s == BigEndian(2, value)
  {
    assert BigEndian(2, value) == BigEndian(1, value / 256) + [value % 256];
    assert BigEndian(1, value / 256) == BigEndian(0, value / 256 / 256) + [value / 256 % 256];
    [value / 256 % 256, value % 256]
  }

  function Uint32Bytes(value: nat): (s: seq<Byte>)
    requires value <= 0xffff_ffff
    ensures s == BigEndian(4, value)
  {
    var v1, v2, v3 := value / 0x100, value / 0x1_0000, value / 0x100_0000;
    assert v1 / 256 == v2 && v2 / 256 == v3;
    assert BigEndian(1, v3) == BigEndian(0, v3 / 256) + [v3 % 256];
    assert BigEndian(2, v2) == BigEndian(1, v3) + [v2 % 256];
    assert BigEndian(3, v1) == BigEndian(2, v2) + [v1 % 256];
    assert BigEndian(4, value) == BigEndian(3, v1) + [value % 256];
    [v3 % 256, v2 % 256, v1 % 256, value % 256]
  }

  method Uint64Bytes(value: nat) returns (output: array<Byte>)
    requires value <= 0xffff_ffff_ffff_ffff
    ensures fresh(output) && output[..] == BigEndian(8, value)
  {
    var remaining := value;
    output := new Byte[8](_ => 0);
    var index := 7;
    while index >= 0
      invariant -1 <= index <= 7
      invariant BigEndian(8, value) == BigEndian(index + 1, remaining) + output[index + 1..]
    {
      ghost var tail := output[index + 1..];
      output[index] := remaining % 256;
      assert output[index..] == [remaining % 256] + tail;
      remaining := remaining / 256;
      index := index - 1;
    }
  }

  function Flatten(parts: seq<seq<Byte>>): seq<Byte> {
    if parts == [] then [] else parts[0] + Flatten(parts[1..])
  }

  lemma {:induction false} FlattenAppend(parts: seq<seq<Byte>>, last: seq<Byte>)
    ensures Flatten(parts + [last]) == Flatten(parts) + last
  {
    if parts == [] {
      assert [last][1..] == [];
      assert parts + [last] == [last];
    } else {
      FlattenAppend(parts[1..], last);
      assert (parts + [last])[1..] == parts[1..] + [last];
    }
  }

  lemma FlattenPrefix(parts: seq<seq<Byte>>, n: nat)
    requires n < |parts|
    ensures Flatten(parts[..n + 1]) == Flatten(parts[..n]) + parts[n]
  {
    FlattenAppend(parts[..n], parts[n]);
    assert parts[..n + 1] == parts[..n] + [parts[n]];
  }

  lemma {:induction false} FlattenSplit(parts: seq<seq<Byte>>, n: nat)
    requires n <= |parts|
    ensures Flatten(parts) == Flatten(parts[..n]) + Flatten(parts[n..])
  {
    if n == 0 {
      assert parts[0..] == parts;
    } else {
      FlattenSplit(parts[1..], n - 1);
      assert parts[..n][1..] == parts[1..][..n - 1];
      assert parts[n..] == parts[1..][n - 1..];
    }
  }

  /** Allocates once and copies every part at a moving offset. */
  method ConcatBytes(parts: seq<seq<Byte>>) returns (output: array<Byte>)
    ensures fresh(output) && output[..] == Flatten(parts)
  {
    var total := 0;
    for i := 0 to |parts|
      invariant total == |Flatten(parts[..i])|
    {
      FlattenPrefix(parts, i);
      total := total + |parts[i]|;
    }
    assert parts[..|parts|] == parts;
    output := new Byte[total](_ => 0);
    var offset := 0;
    for i := 0 to |parts|
      invariant offset == |Flatten(parts[..i])| <= total
      invariant output[..offset] == Flatten(parts[..i])
    {
      FlattenPrefix(parts, i);
      FlattenSplit(parts, i + 1);
      var part := parts[i];
      forall k | 0 <= k < |part| {
        output[offset + k] := part[k];
      }
      assert output[..offset + |part|] == Flatten(parts[..i]) + part;
      offset := offset + |part|;
    }
    assert parts[..|parts|] == parts;
  }
}
