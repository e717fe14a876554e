/** The Internet checksum.  The code adds little-endian words and swaps the folded sum; the
    standard (section 2(B) of RFC 1071) adds big-endian words in ones' complement. */
module Checksum {
  import opened NetBytes

  const M16: nat := 0x1_0000
  const M32: nat := 0x1_0000_0000

  // ---------------------------------------------------------------------------------
  // The standard
  // ---------------------------------------------------------------------------------

  /** Ones' complement addition of 16-bit numbers: the carry comes back in at the end. */
  function OnesAdd(x: nat, y: nat): nat {
    if x + y >= M16 then x + y - M16 + 1 else x + y
  }

  /** Ones' complement sum of the big-endian words; an odd last byte is padded with zero. */
  function OnesSum(b: seq<byte>): nat {
    if |b| == 0 then 0
    else if |b| == 1 then Pair(b[0], 0)
    else OnesAdd(Pair(b[0], b[1]), OnesSum(b[2..]))
  }

  /** The checksum of RFC 1071: the complement of the sum. */
  function RfcChecksum(b: seq<byte>): int {
    0xFFFF - OnesSum(b)
  }

  // ---------------------------------------------------------------------------------
  // The code
  // ---------------------------------------------------------------------------------

  /** Plain sum of the little-endian words; an odd last byte counts as a word. */
  function LeSum(b: seq<byte>): nat {
    if |b| == 0 then 0
    else if |b| == 1 then b[0]
    else Pair(b[1], b[0]) + LeSum(b[2..])
  }

  /** netchecksum_acc: 32-bit additions wrap around. */
  method NetChecksumAcc(data: array<byte>, start: nat, end: nat, sum0: nat) returns (sum: nat)
    requires start <= end <= data.Length && end - start < M32 && sum0 < M32
    ensures sum == (sum0 + LeSum(data[start..end])) % M32
  {
    sum := sum0;
    var len, p := end - start, start;
    while len > 1
      invariant start <= p <= end && len == end - p && sum < M32
      invariant (sum + LeSum(data[p..end])) % M32 == (sum0 + LeSum(data[start..end])) % M32
    {
      assert data[p..end][2..] == data[p + 2..end];
      WrapAdd(sum, Pair(data[p + 1], data[p]), LeSum(data[p + 2..end]));
      sum := (sum + Pair(data[p + 1], data[p])) % M32;
      len, p := len - 2, p + 2;
    }
    if len != 0 {
      sum := (sum + data[p] as nat) % M32;
    }
  }

  lemma WrapAdd(x: nat, y: nat, z: nat)
    ensures ((x + y) % M32 + z) % M32 == (x + (y + z)) % M32
  {
  }

  /** netchecksum_final: two folds of the carries, complement, byte swap. */
  method NetChecksumFinal(sum0: nat) returns (checksum: nat)
    requires sum0 < M32
    ensures checksum == SwappedComplement(Folded(sum0)) < M16
  {
    var sum := sum0 % M16 + sum0 / M16;
    sum := (sum + sum / M16) % M32;
    FoldTwice(sum0);
    var temp := (M32 - 1 - sum) % M16;
    assert temp == 0xFFFF - Folded(sum0);
    SwapValue(temp);
    checksum := temp % 256 * 256 + temp / 256 % 256;
  }

  /** A sum folded to 16 bits: congruent modulo 0xFFFF, and zero only for zero. */
  function Folded(s: nat): (r: nat)
    ensures r < M16
  {
    if s == 0 then 0 else 1 + (s - 1) % 0xFFFF
  }

  function SwappedComplement(s: nat): (r: nat)
    requires s < M16
    ensures r < M16
  {
    NetSwap16(0xFFFF - s)
  }

  /** Two folds are enough for every 32-bit sum. */
  lemma FoldTwice(s: nat)
    requires s < M32
    ensures var f := s % M16 + s / M16; (f + f / M16) % M16 == Folded(s) && f + f / M16 < M32
  {
    var q, r := s / M16, s % M16;
    assert s == 0xFFFF * q + (q + r);
    if s > 0 {
      assert (s - 1) % 0xFFFF == (q + r - 1) % 0xFFFF;
    }
  }

  /** netchecksum.  The sum of the words, cut to 32 bits, decides the result. */
  method NetChecksum(data: array<byte>, start: nat, end: nat) returns (checksum: nat)
    requires start <= end <= data.Length && end - start < M32
    ensures checksum < M16
    ensures checksum == RfcChecksum(data[start..end]) <==> LeSum(data[start..end]) < M32
    ensures end - start <= 2 * 65537 ==> checksum == RfcChecksum(data[start..end])
  {
    var sum := NetChecksumAcc(data, start, end, 0);
    checksum := NetChecksumFinal(sum);
    ChecksumIsRfc(data[start..end]);
    if end - start <= 2 * 65537 {
      SumBound(data[start..end]);
    }
  }

  // ---------------------------------------------------------------------------------
  // The code computes the standard's checksum
  // ---------------------------------------------------------------------------------

  lemma FoldedAdd(x: nat, y: nat)
    ensures OnesAdd(Folded(x), Folded(y)) == Folded(x + y)
  {
    var a, b := if x == 0 then 0 else (x - 1) / 0xFFFF, if y == 0 then 0 else (y - 1) / 0xFFFF;
    assert x == 0xFFFF * a + Folded(x) && y == 0xFFFF * b + Folded(y);
    FoldedIs(x + y, a + b, Folded(x) + Folded(y));
  }

  lemma FoldedIs(s: nat, q: nat, r: nat)
    requires s == 0xFFFF * q + r && r <= 2 * 0xFFFF && (s > 0 ==> r > 0)
    ensures Folded(s) == if r > 0xFFFF then r - 0xFFFF else r
  {
    if s > 0 {
      assert (s - 1) % 0xFFFF == (r - 1) % 0xFFFF;
    }
  }

  /** Swapping the bytes of a folded sum multiplies it by 256 modulo 0xFFFF. */
  lemma FoldedSwap(s: nat)
    ensures NetSwap16(Folded(s)) == Folded(256 * s)
  {
    var f, q := Folded(s), if s == 0 then 0 else (s - 1) / 0xFFFF;
    assert s == 0xFFFF * q + f;
    var lo, hi := f % 256, f / 256;
    assert f == 256 * hi + lo && hi < 256;
    SwapValue(f);
    assert NetSwap16(f) == 256 * lo + hi;
    assert 256 * s == 0xFFFF * (256 * q + hi) + (256 * lo + hi);
    FoldedIs(256 * s, 256 * q + hi, 256 * lo + hi);
  }

  /** The big-endian ones' complement sum is the folded little-endian sum, bytes swapped. */
  lemma {:induction false} OnesSumIsSwapped(b: seq<byte>)
    ensures OnesSum(b) == Folded(256 * LeSum(b))
    decreases |b|
  {
    if |b| == 1 {
      FoldedIs(256 * LeSum(b), 0, Pair(b[0], 0));
    } else if |b| >= 2 {
      OnesSumIsSwapped(b[2..]);
      var w := Pair(b[1], b[0]);
      FoldedIs(256 * w, b[1], Pair(b[0], b[1]));
      FoldedAdd(256 * w, 256 * LeSum(b[2..]));
      assert 256 * LeSum(b) == 256 * w + 256 * LeSum(b[2..]);
    }
  }

  lemma SwapComplement(f: nat)
    requires f < M16
    ensures SwappedComplement(f) == 0xFFFF - NetSwap16(f)
  {
    hide NetSwap16;
    var lo, hi := f % 256, f / 256;
    SwapValue(f);
    SwapValue(0xFFFF - f);
    assert 0xFFFF - f == 256 * (255 - hi) + (255 - lo);
  }

  /** For every byte string whose length fits the 32-bit length counter, the code computes
      the standard's checksum exactly if the sum of its words does not overflow 32 bits. */
  lemma ChecksumIsRfc(b: seq<byte>)
    requires |b| < M32
    ensures SwappedComplement(Folded(LeSum(b) % M32)) == RfcChecksum(b) <==> LeSum(b) < M32
  {
    hide Folded;
    hide NetSwap16;
    hide SwappedComplement;
    hide OnesSum;
    hide LeSum;
    var s := LeSum(b);
    OnesSumIsSwapped(b);
    FoldedSwap(s);
    SwapComplement(Folded(s % M32));
    SwapComplement(Folded(s));
    if s >= M32 {
      WordsBound(b);
      OverflowShows(s);
      SwapInjective(Folded(s % M32), Folded(s));
    }
  }

  lemma SwapInjective(x: nat, y: nat)
    requires x < M16 && y < M16
    ensures NetSwap16(x) == NetSwap16(y) ==> x == y
  {
    hide NetSwap16;
    SwapValue(x);
    SwapValue(y);
  }

  lemma FoldedMod(s: nat)
    ensures Folded(s) % 0xFFFF == s % 0xFFFF
  {
    if s > 0 {
      assert s == 0xFFFF * ((s - 1) / 0xFFFF) + Folded(s);
    }
  }

  // A lost carry changes the sum modulo 0xFFFF.
  lemma OverflowShows(s: nat)
    requires M32 <= s < 0x8000 * M32
    ensures Folded(s % M32) != Folded(s)
  {
    var q, r := s / M32, s % M32;
    assert M32 == 0xFFFF * 0x1_0001 + 1;
    assert s == 0xFFFF * (0x1_0001 * q) + (q + r) && 0 < q < 0x8000;
    assert s % 0xFFFF == (q + r) % 0xFFFF;
    FoldedMod(s);
    FoldedMod(r);
    assert (q + r) % 0xFFFF != r % 0xFFFF;
  }

  lemma {:induction false} WordsBound(b: seq<byte>)
    ensures 2 * LeSum(b) <= 0xFFFF * (|b| + 1)
    decreases |b|
  {
    if |b| >= 2 {
      WordsBound(b[2..]);
    }
  }

  /** Up to 65537 words never overflow. */
  lemma SumBound(b: seq<byte>)
    requires |b| <= 2 * 65537
    ensures LeSum(b) < M32
  {
    EvenBound(b);
  }

  lemma {:induction false} EvenBound(b: seq<byte>)
    ensures LeSum(b) <= 0xFFFF * ((|b| + 1) / 2)
    decreases |b|
  {
    if |b| >= 2 {
      EvenBound(b[2..]);
    }
  }

  // ---------------------------------------------------------------------------------
  // The receiver's check
  // ---------------------------------------------------------------------------------

  lemma {:induction false} OnesSumRange(b: seq<byte>)
    ensures OnesSum(b) < M16
    decreases |b|
  {
    if |b| >= 2 {
      OnesSumRange(b[2..]);
    }
  }

  lemma OnesAddAssociative(x: nat, y: nat, z: nat)
    requires x < M16 && y < M16 && z < M16
    ensures OnesAdd(x, OnesAdd(y, z)) == OnesAdd(OnesAdd(x, y), z)
  {
  }

  /** After an even number of bytes, the sum of the rest adds on. */
  lemma {:induction false} OnesSumConcat(a: seq<byte>, b: seq<byte>)
    requires |a| % 2 == 0
    ensures OnesSum(a + b) == OnesAdd(OnesSum(a), OnesSum(b))
    decreases |a|
  {
    OnesSumRange(b);
    if a == [] {
      assert a + b == b;
    } else {
      assert (a + b)[2..] == a[2..] + b;
      OnesSumConcat(a[2..], b);
      OnesSumRange(a[2..]);
      OnesAddAssociative(Pair(a[0], a[1]), OnesSum(a[2..]), OnesSum(b));
    }
  }

  lemma OnesSumWord(v: nat)
    requires v < M16
    ensures OnesSum(Net16(v)) == v
  {
    BytesAre(v);
    assert Net16(v)[2..] == [];
  }

  /** Bytes that carry their own checksum at an even offset sum up to 0xFFFF. */
  lemma CheckedSum(a: seq<byte>, b: seq<byte>)
    requires |a| % 2 == 0
    ensures var c := RfcChecksum(a + [0, 0] + b);
            0 <= c < M16 && OnesSum(a + Net16(c) + b) == 0xFFFF
  {
    var zero: seq<byte> := [0, 0];
    OnesSumRange(a + zero + b);
    var c := RfcChecksum(a + zero + b);
    assert a + zero + b == a + (zero + b) && a + Net16(c) + b == a + (Net16(c) + b);
    OnesSumConcat(a, zero + b);
    OnesSumConcat(zero, b);
    OnesSumConcat(a, Net16(c) + b);
    OnesSumConcat(Net16(c), b);
    OnesSumWord(c);
    assert zero == Net16(0);
    OnesSumWord(0);
    OnesSumRange(a);
    OnesSumRange(b);
  }
}
