/** Bit strings: big-endian fields, the appendable bit buffer, and packing into bytes. */
module BitBuffers {
  import opened Gf256

  function Pow2(n: nat): (p: nat)
    ensures p >= 1
  {
    if n == 0 then 1 else 2 * Pow2(n - 1)
  }

  /** The n low-order bits of v, most significant bit first. */
  function Bits(v: nat, n: nat): (b: seq<bool>)
    ensures |b| == n
  {
    if n == 0 then [] else Bits(v / 2, n - 1) + [v % 2 == 1]
  }

  /** The number a bit string stands for. */
  function Number(b: seq<bool>): nat {
    if b == [] then 0 else 2 * Number(b[..|b| - 1]) + if b[|b| - 1] then 1 else 0
  }

  /** Writing a number that fits its field and reading the field returns the number. */
  lemma {:induction false} NumberOfBits(v: nat, n: nat)
    requires v < Pow2(n)
    ensures Number(Bits(v, n)) == v
  {
    if n != 0 {
      NumberOfBits(v / 2, n - 1);
      assert Bits(v, n)[..n - 1] == Bits(v / 2, n - 1);
    }
  }

  lemma {:induction false} NumberBound(b: seq<bool>)
    ensures Number(b) < Pow2(|b|)
  {
    if b != [] { NumberBound(b[..|b| - 1]); }
  }

  lemma {:induction false} BitsOfNumber(b: seq<bool>)
    ensures Bits(Number(b), |b|) == b
  {
    if b != [] {
      var n := |b| - 1;
      BitsOfNumber(b[..n]);
      assert Number(b) / 2 == Number(b[..n]);
      assert b == b[..n] + [b[n]];
    }
  }

  /** (v >> i) */
  function ShiftDown(v: nat, i: nat): nat {
    if i == 0 then v else ShiftDown(v, i - 1) / 2
  }

  lemma {:induction false} ShiftDownFits(v: nat, n: nat)
    ensures ShiftDown(v, n) == 0 <==> v < Pow2(n)
  {
    if n != 0 {
      ShiftDownHead(v, n);
      ShiftDownFits(v / 2, n - 1);
    }
  }

  lemma {:induction false} BitsShift(v: nat, n: nat, i: nat)
    requires i < n
    ensures Bits(v, n)[n - 1 - i] == (ShiftDown(v, i) % 2 == 1)
    decreases i
  {
    if i != 0 {
      BitsShift(v / 2, n - 1, i - 1);
      ShiftDownHead(v, i);
    }
  }

  lemma {:induction false} ShiftDownHead(v: nat, i: nat)
    requires i >= 1
    ensures ShiftDown(v, i) == ShiftDown(v / 2, i - 1)
  {
    if i > 1 { ShiftDownHead(v, i - 1); }
  }

  /** An appendable sequence of bits. */
  class BitBuffer {
    var bits: seq<bool>

    constructor ()
      ensures bits == []
    {
      bits := [];
    }

    /** Appends the `len` low-order bits of `val`; refuses a length or a value out of range. */
    method AppendBits(val: nat, len: int) returns (ok: bool)
      modifies this
      ensures ok <==> 0 <= len <= 31 && val < Pow2(len)
      ensures bits == old(bits) + if ok then Bits(val, len) else []
    {
      hide Bits, Pow2, ShiftDown;
      if len < 0 || len > 31 { return false; }
      ShiftDownFits(val, len);
      if ShiftDown(val, len) != 0 { return false; }
      ghost var before := bits;
      var i := len - 1;
      while i >= 0
        invariant -1 <= i < len
        invariant bits == before + Bits(val, len)[..len - 1 - i]
      {
        BitsShift(val, len, i);
        bits := bits + [ShiftDown(val, i) % 2 == 1];
        i := i - 1;
      }
      assert Bits(val, len)[..len] == Bits(val, len);
      return true;
    }

    /** Appends the data bits of a segment. */
    method AppendAll(more: seq<bool>)
      modifies this
      ensures bits == old(bits) + more
    {
      bits := bits + more;
    }
  }

  // ----- packing

  /** The bits of a byte, most significant first. */
  function ByteBits(b: Byte): (s: seq<bool>)
    ensures |s| == 8
  {
    [b.b7, b.b6, b.b5, b.b4, b.b3, b.b2, b.b1, b.b0]
  }

  /** The bits of a sequence of bytes. */
  function Unpack(bytes: seq<Byte>): (s: seq<bool>)
    ensures |s| == 8 * |bytes|
  {
    if bytes == [] then [] else Unpack(bytes[..|bytes| - 1]) + ByteBits(bytes[|bytes| - 1])
  }

  lemma {:induction false} UnpackAt(bytes: seq<Byte>, i: nat)
    requires i < 8 * |bytes|
    ensures Unpack(bytes)[i] == ByteBits(bytes[i / 8])[i % 8]
  {
    hide ByteBits;
    var n := |bytes| - 1;
    if i < 8 * n {
      UnpackAt(bytes[..n], i);
    } else {
      assert i / 8 == n && i % 8 == i - 8 * n;
    }
  }

  function FromBits(s: seq<bool>): Byte
    requires |s| == 8
  {
    Byte(s[0], s[1], s[2], s[3], s[4], s[5], s[6], s[7])
  }

  lemma FromBitsBits(s: seq<bool>)
    requires |s| == 8
    ensures ByteBits(FromBits(s)) == s
  {
  }

  /** b | (1 << (7 - j)) when the bit is set. */
  function OrBit(b: Byte, j: nat, bit: bool): Byte
    requires j < 8
  {
    FromBits(ByteBits(b)[j := ByteBits(b)[j] || bit])
  }

  /** Packs whole bytes of bits in big endian; unpacking returns the bits. */
  method Pack(bits: seq<bool>) returns (bytes: seq<Byte>)
    requires |bits| % 8 == 0
    ensures |bytes| == |bits| / 8
    ensures Unpack(bytes) == bits
  {
    hide FromBits, ByteBits;
    bytes := seq(|bits| / 8, _ => Zero);
    assert forall k :: 0 <= k < |bytes| ==> ByteBits(bytes[k]) == EightZeros by { ZeroBits(); }
    for i := 0 to |bits|
      invariant |bytes| == |bits| / 8
      invariant forall k, j :: 0 <= k < |bytes| && 0 <= j < 8 ==>
        ByteBits(bytes[k])[j] == (8 * k + j < i && bits[8 * k + j])
    {
      var k, j := i / 8, i % 8;
      FromBitsBits(ByteBits(bytes[k])[j := ByteBits(bytes[k])[j] || bits[i]]);
      bytes := bytes[k := OrBit(bytes[k], j, bits[i])];
    }
    forall i | 0 <= i < |bits|
      ensures Unpack(bytes)[i] == bits[i]
    {
      UnpackAt(bytes, i);
    }
  }

  const EightZeros := [false, false, false, false, false, false, false, false]

  lemma ZeroBits()
    ensures ByteBits(Zero) == EightZeros
  {
  }
}
