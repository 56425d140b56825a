/** Fixed-width little- and big-endian integers, and the byte buffer they are written to. */
module Bytes {
  import opened Words
  import opened Arith

  function Pow256(n: nat): (p: nat)
    ensures p >= 1
  {
    if n == 0 then 1 else 256 * Pow256(n - 1)
  }

  function ToLE(v: nat, width: nat): (b: seq<u8>)
    ensures |b| == width
  {
    if width == 0 then [] else [v % 256] + ToLE(v / 256, width - 1)
  }

  function FromLE(b: seq<u8>): (v: nat) {
    if b == [] then 0 else b[0] + 256 * FromLE(b[1..])
  }

  function ToBE(v: nat, width: nat): (b: seq<u8>)
    ensures |b| == width
  {
    if width == 0 then [] else ToBE(v / 256, width - 1) + [v % 256]
  }

  function FromBE(b: seq<u8>): (v: nat) {
    if b == [] then 0 else FromBE(b[..|b| - 1]) * 256 + b[|b| - 1]
  }

  lemma {:induction false} FromToLE(v: nat, width: nat)
    requires v < Pow256(width)
    ensures FromLE(ToLE(v, width)) == v
  {
    if width > 0 {
      FromToLE(v / 256, width - 1);
      assert ToLE(v, width)[1..] == ToLE(v / 256, width - 1);
    }
  }

  lemma {:induction false} ToFromLE(b: seq<u8>)
    ensures FromLE(b) < Pow256(|b|)
    ensures ToLE(FromLE(b), |b|) == b
  {
    if b != [] {
      ToFromLE(b[1..]);
      assert FromLE(b) / 256 == FromLE(b[1..]) && FromLE(b) % 256 == b[0];
      assert b == [b[0]] + b[1..];
    }
  }

  lemma {:induction false} FromToBE(v: nat, width: nat)
    requires v < Pow256(width)
    ensures FromBE(ToBE(v, width)) == v
  {
    if width > 0 {
      FromToBE(v / 256, width - 1);
      assert ToBE(v, width)[..width - 1] == ToBE(v / 256, width - 1);
    }
  }

  lemma {:induction false} ToFromBE(b: seq<u8>)
    ensures FromBE(b) < Pow256(|b|)
    ensures ToBE(FromBE(b), |b|) == b
  {
    if b != [] {
      var front := b[..|b| - 1];
      ToFromBE(front);
      assert FromBE(b) / 256 == FromBE(front) && FromBE(b) % 256 == b[|b| - 1];
      assert b == front + [b[|b| - 1]];
    }
  }

  /** Dividing by 256 and then by a power of it is dividing by the next power. */
  lemma DivPow(v: nat, k: nat, next: nat)
    requires next == k + 1
    ensures v / 256 / Pow256(k) == v / Pow256(next)
  {
    var q, p := v / 256, Pow256(k);
    var high, low := q / p, q % p;
    DivModParts(q, p);
    MulAdd(256, p * high, low);
    MulAssoc(256, p, high);
    assert Pow256(next) == 256 * p;
    DivUnique(v, 256 * p, high, 256 * low + v % 256);
  }

  /** Little-endian: byte `k` is the `k`th digit in base 256. */
  lemma {:induction false} LittleEndianByte(v: nat, width: nat, k: nat)
    requires k < width
    ensures ToLE(v, width)[k] == v / Pow256(k) % 256
    decreases width
  {
    if k > 0 {
      LittleEndianByte(v / 256, width - 1, k - 1);
      DivPow(v, k - 1, k);
    }
  }

  /** Big-endian: byte `k` is the `k`th digit in base 256, counted from the end. */
  lemma {:induction false} BigEndianByte(v: nat, width: nat, k: nat)
    requires k < width
    ensures ToBE(v, width)[k] == v / Pow256(width - 1 - k) % 256
    decreases width
  {
    if k < width - 1 {
      BigEndianByte(v / 256, width - 1, k);
      DivPow(v, width - 2 - k, width - 1 - k);
    }
  }

  /** The bytes are the digits of `v` in base 256, highest first. */
  ghost predicate BigEndianIs(raw: seq<u8>, v: nat) {
    forall k :: 0 <= k < |raw| ==> raw[k] == v / Pow256(|raw| - 1 - k) % 256
  }

  lemma BigEndianRead(raw: seq<u8>, v: nat, width: nat)
    requires |raw| == width && v < Pow256(width) && BigEndianIs(raw, v)
    ensures raw == ToBE(v, width) && FromBE(raw) == v
  {
    forall k | 0 <= k < width
      ensures raw[k] == ToBE(v, width)[k]
    {
      BigEndianByte(v, width, k);
    }
    FromToBE(v, width);
  }

  /** Digits of a number split at a whole byte. */
  lemma {:induction false} LittleEndianSplit(low: nat, high: nat, a: nat, b: nat)
    requires low < Pow256(a)
    ensures ToLE(low + Pow256(a) * high, a + b) == ToLE(low, a) + ToLE(high, b)
    decreases a
  {
    var v := low + Pow256(a) * high;
    if a > 0 {
      var p := Pow256(a - 1);
      MulAssoc(256, p, high);
      assert v == 256 * (low / 256 + p * high) + low % 256;
      DivUnique(v, 256, low / 256 + p * high, low % 256);
      LittleEndianSplit(low / 256, high, a - 1, b);
      assert a + b - 1 == a - 1 + b;
    }
  }

  lemma WordWidths()
    ensures Pow256(1) == 0x100 && Pow256(2) == 0x1_0000 && Pow256(4) == 0x1_0000_0000
    ensures Pow256(8) == BASE
  {
    assert Pow256(3) == 0x100_0000;
    assert Pow256(5) == 0x100_0000_0000;
    assert Pow256(6) == 0x1_0000_0000_0000;
    assert Pow256(7) == 0x100_0000_0000_0000;
  }

  /** `part` stands at offset `at` of `bytes`. */
  ghost predicate Stands(bytes: seq<u8>, at: nat, part: seq<u8>) {
    at + |part| <= |bytes| && bytes[at..at + |part|] == part
  }

  lemma StandsParts(bytes: seq<u8>, at: nat, a: seq<u8>, b: seq<u8>)
    requires Stands(bytes, at, a + b)
    ensures Stands(bytes, at, a) && Stands(bytes, at + |a|, b)
  {
    assert bytes[at..at + |a|] == bytes[at..at + |a + b|][..|a|];
    assert bytes[at + |a|..at + |a| + |b|] == bytes[at..at + |a + b|][|a|..];
  }

  lemma StandsJoin(bytes: seq<u8>, at: nat, a: seq<u8>, b: seq<u8>)
    requires Stands(bytes, at, a) && Stands(bytes, at + |a|, b)
    ensures Stands(bytes, at, a + b)
  {
    assert bytes[at..at + |a| + |b|] == bytes[at..at + |a|] + bytes[at + |a|..at + |a| + |b|];
  }

  lemma Cut(bytes: seq<u8>, from: nat, mid: nat, to: nat)
    requires from <= mid <= to <= |bytes|
    ensures bytes[from..to] == bytes[from..mid] + bytes[mid..to]
  {
  }

  /** A growing byte vector. */
  class Buffer {
    var data: seq<u8>

    constructor ()
      ensures data == []
    {
      data := [];
    }

    method Push(byte: u8)
      modifies this
      ensures data == old(data) + [byte]
    {
      data := data + [byte];
    }

    method Extend(bytes: seq<u8>)
      modifies this
      ensures data == old(data) + bytes
    {
      data := data + bytes;
    }
  }
}
