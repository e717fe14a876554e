/** Bytes, little-endian memory words and the byte swaps between host and network order. */
module NetBytes {
  type byte = b: int | 0 <= b < 256

  /** v shifted right by whole bytes. */
  function ShiftedRight(v: nat, bytes: nat): nat
    decreases v
  {
    if v == 0 || bytes == 0 then v else ShiftedRight(v / 256, bytes - 1)
  }

  /** Byte i of v, counted from the least significant one. */
  function ByteAt(v: nat, i: nat): byte {
    ShiftedRight(v, i) % 256
  }

  /** netswap16: its argument is first cut to 16 bits. */
  function NetSwap16(v: nat): (r: nat)
    ensures r < 0x1_0000
  {
    ByteAt(v, 0) * 256 + ByteAt(v, 1)
  }

  /** netswap32: its argument is first cut to 32 bits. */
  function NetSwap32(v: nat): (r: nat)
    ensures r < 0x1_0000_0000
  {
    ByteAt(v, 0) * 0x100_0000 + ByteAt(v, 1) * 0x1_0000 + ByteAt(v, 2) * 256 + ByteAt(v, 3)
  }

  /** The bytes of a 16-bit word in this machine's memory. */
  function Word16(v: nat): (b: seq<byte>)
    ensures |b| == 2
  {
    [ByteAt(v, 0), ByteAt(v, 1)]
  }

  /** The bytes of a 32-bit word in this machine's memory. */
  function Word32(v: nat): (b: seq<byte>)
    ensures |b| == 4
  {
    [ByteAt(v, 0), ByteAt(v, 1), ByteAt(v, 2), ByteAt(v, 3)]
  }

  function Pair(high: byte, low: byte): (v: nat)
    ensures v < 0x1_0000
  {
    256 * (high as nat) + low as nat
  }

  /** A 16-bit word read back from this machine's memory. */
  function Load16(b: seq<byte>): (v: nat)
    requires |b| == 2
    ensures v < 0x1_0000
  {
    Pair(b[1], b[0])
  }

  function Load32(b: seq<byte>): (v: nat)
    requires |b| == 4
    ensures v < 0x1_0000_0000
  {
    Pair(b[1], b[0]) + 0x1_0000 * Pair(b[3], b[2])
  }

  /** The bytes of a word in network order, most significant first. */
  function Net16(v: nat): (b: seq<byte>)
    ensures |b| == 2
  {
    [ByteAt(v, 1), ByteAt(v, 0)]
  }

  function Net32(v: nat): (b: seq<byte>)
    ensures |b| == 4
  {
    [ByteAt(v, 3), ByteAt(v, 2), ByteAt(v, 1), ByteAt(v, 0)]
  }

  /** Storing a swapped word puts its bytes in network order, and swapping what is loaded
      from them gives the word back, cut to its width. */
  lemma Swap16(v: nat)
    ensures Word16(NetSwap16(v)) == Net16(v)
    ensures NetSwap16(Load16(Net16(v))) == v % 0x1_0000
  {
    hide ByteAt;
    hide Pair;
    hide NetSwap16;
    SwapPairs(v);
    PairBytes(ByteAt(v, 0), ByteAt(v, 1));
    SwapPairs(Pair(ByteAt(v, 0), ByteAt(v, 1)));
    LowPair(v);
  }

  lemma SwapPairs(v: nat)
    ensures NetSwap16(v) == Pair(ByteAt(v, 0), ByteAt(v, 1))
  {
    hide ByteAt;
  }

  lemma LowPair(v: nat)
    ensures v % 0x1_0000 == Pair(ByteAt(v, 1), ByteAt(v, 0))
  {
    hide ByteAt;
    BytesAre(v);
    var x := v / 256;
    assert v == 256 * x + v % 256 && x == 256 * (x / 256) + x % 256;
    LowHalf(v, x / 256, Pair(ByteAt(v, 1), ByteAt(v, 0)));
  }

  lemma SwapValue(v: nat)
    ensures NetSwap16(v) == v % 256 * 256 + v / 256 % 256
  {
    hide ByteAt;
    BytesAre(v);
  }

  lemma PairBytes(high: byte, low: byte)
    ensures ByteAt(Pair(high, low), 0) == low && ByteAt(Pair(high, low), 1) == high
  {
    hide ByteAt;
    BytesAre(Pair(high, low));
  }

  lemma Swap32(v: nat)
    ensures Word32(NetSwap32(v)) == Net32(v)
    ensures NetSwap32(Load32(Net32(v))) == v % 0x1_0000_0000
  {
    hide ByteAt;
    hide Composed;
    hide NetSwap32;
    SwapComposes(v);
    ComposedBytes(ByteAt(v, 3), ByteAt(v, 2), ByteAt(v, 1), ByteAt(v, 0));
    BytesCompose(v);
    ComposedBytes(ByteAt(v, 0), ByteAt(v, 1), ByteAt(v, 2), ByteAt(v, 3));
    LoadComposes(Net32(v));
    SwapComposes(Load32(Net32(v)));
  }

  lemma SwapComposes(v: nat)
    ensures NetSwap32(v) == Composed(ByteAt(v, 3), ByteAt(v, 2), ByteAt(v, 1), ByteAt(v, 0))
  {
    hide ByteAt;
  }

  lemma LoadComposes(b: seq<byte>)
    requires |b| == 4
    ensures Load32(b) == Composed(b[0], b[1], b[2], b[3])
  {
  }

  /** A 32-bit number from its bytes, least significant first. */
  function Composed(a: byte, b: byte, c: byte, d: byte): (v: nat)
    ensures v < 0x1_0000_0000
  {
    a as nat + 256 * (b as nat) + 0x1_0000 * (c as nat) + 0x100_0000 * (d as nat)
  }

  lemma NextByte(v: nat, i: nat)
    requires i > 0
    ensures ByteAt(v, i) == ByteAt(v / 256, i - 1)
  {
    if v == 0 {
      assert ShiftedRight(0, i) == ShiftedRight(0, i - 1);
    }
  }

  lemma BytesAre(v: nat)
    ensures ByteAt(v, 0) as nat == v % 256 && ByteAt(v, 1) as nat == v / 256 % 256
    ensures ByteAt(v, 2) as nat == v / 256 / 256 % 256 && ByteAt(v, 3) as nat == v / 256 / 256 / 256 % 256
  {
    assert forall x: nat :: ByteAt(x, 0) as nat == x % 256;
    hide ByteAt;
    NextByte(v, 1);
    NextByte(v, 2);
    NextByte(v, 3);
    NextByte(v / 256, 1);
    NextByte(v / 256, 2);
    NextByte(v / 256 / 256, 1);
  }

  lemma ComposedBytes(a: byte, b: byte, c: byte, d: byte)
    ensures var n := Composed(a, b, c, d);
            ByteAt(n, 0) == a && ByteAt(n, 1) == b && ByteAt(n, 2) == c && ByteAt(n, 3) == d
  {
    hide ByteAt;
    var n := Composed(a, b, c, d);
    BytesAre(n);
    assert n / 256 == b as nat + 256 * (c as nat) + 0x1_0000 * (d as nat);
    assert n / 256 / 256 == c as nat + 256 * (d as nat);
  }

  /** The four low bytes make up a number cut to 32 bits. */
  lemma BytesCompose(v: nat)
    ensures v % 0x1_0000_0000 == Composed(ByteAt(v, 0), ByteAt(v, 1), ByteAt(v, 2), ByteAt(v, 3))
  {
    hide ByteAt;
    BytesAre(v);
    var x := v / 256;
    var y := x / 256;
    var z := y / 256;
    assert v == 256 * x + v % 256 && x == 256 * y + x % 256 && y == 256 * z + y % 256 && z == 256 * (z / 256) + z % 256;
    LowWord(v, z / 256, Composed(ByteAt(v, 0), ByteAt(v, 1), ByteAt(v, 2), ByteAt(v, 3)));
  }

  // ---------------------------------------------------------------------------------
  // Numbers in network order
  // ---------------------------------------------------------------------------------

  /** The number that bytes stand for, the most significant one first. */
  function Number(b: seq<byte>): nat {
    if b == [] then 0 else 256 * Number(b[..|b| - 1]) + b[|b| - 1] as nat
  }

  lemma NumberOfTwo(b: seq<byte>)
    requires |b| == 2
    ensures Number(b) == Pair(b[0], b[1])
  {
    var none: seq<byte> := [];
    assert b[..1] == [b[0]] && [b[0]][..0] == none;
    assert Number(none) == 0 && Number([b[0]]) == b[0] as nat;
    assert Number(b) == 256 * Number(b[..1]) + b[1] as nat;
  }

  lemma NumberOfFour(b: seq<byte>)
    requires |b| == 4
    ensures Number(b) == Composed(b[3], b[2], b[1], b[0])
  {
    assert b[..3][..2] == b[..2];
    assert Number(b[..3]) == 256 * Number(b[..2]) + b[2] as nat;
    NumberOfTwo(b[..2]);
  }

  /** What Net16 and Net32 write is the number in network order, cut to its width. */
  lemma NetIsNumber(v: nat)
    ensures Number(Net16(v)) == v % 0x1_0000 && Number(Net32(v)) == v % 0x1_0000_0000
  {
    hide ByteAt;
    hide Pair;
    hide Composed;
    hide Number;
    NumberOfTwo(Net16(v));
    LowPair(v);
    NumberOfFour(Net32(v));
    BytesCompose(v);
  }

  /** A swapped load reads a number in network order. */
  lemma SwapReads(b: seq<byte>)
    ensures |b| == 2 ==> NetSwap16(Load16(b)) == Number(b)
    ensures |b| == 4 ==> NetSwap32(Load32(b)) == Number(b)
  {
    hide ByteAt;
    hide Pair;
    hide Composed;
    hide Number;
    hide NetSwap16;
    hide NetSwap32;
    if |b| == 2 {
      NumberOfTwo(b);
      PairBytes(b[1], b[0]);
      SwapPairs(Load16(b));
    } else if |b| == 4 {
      NumberOfFour(b);
      LoadComposes(b);
      ComposedBytes(b[0], b[1], b[2], b[3]);
      SwapComposes(Load32(b));
    }
  }

  lemma LowHalf(v: nat, q: nat, r: nat)
    requires v == 0x1_0000 * q + r && r < 0x1_0000
    ensures v % 0x1_0000 == r
  {
  }

  lemma LowWord(v: nat, q: nat, r: nat)
    requires v == 0x1_0000_0000 * q + r && r < 0x1_0000_0000
    ensures v % 0x1_0000_0000 == r
  {
  }

  /** A part of a part. */
  lemma SliceOfSlice(s: seq<byte>, a: nat, b: nat, c: nat, d: nat)
    requires a <= b <= |s| && c <= d <= b - a
    ensures s[a..b][c..d] == s[a + c..a + d]
  {
    var x, y := s[a..b][c..d], s[a + c..a + d];
    forall k | 0 <= k < d - c
      ensures x[k] == y[k]
    {
      assert x[k] == s[a..b][c + k];
    }
  }
}
