/**
  The process-wide region geometry: every region has the same power-of-two
  size, known both in bytes and in heap words. The helpers here derive how
  many regions an allocation needs and whether it is humongous.
 */
module RegionGeometry {
  import opened MachineInts

  /** `LogHeapWordSize` on a 64-bit VM: a heap word is 8 bytes. */
  const LogHeapWordSize: nat := 3
  const HeapWordSize: nat := 8

  /** The static size fields that `setup_sizes` fills in once at startup. */
  datatype Geometry = Geometry(
    sizeBytes: nat,
    sizeWords: nat,
    bytesShift: nat,
    wordsShift: nat)

  /** What `setup_sizes` establishes: sizes are powers of two with matching shifts, in `size_t` range. */
  predicate Valid(g: Geometry) {
    && LogHeapWordSize <= g.bytesShift < 64
    && g.wordsShift == g.bytesShift - LogHeapWordSize
    && g.sizeBytes == Pow2(g.bytesShift)
    && g.sizeWords == Pow2(g.wordsShift)
  }

  /** The two sizes describe the same region: bytes are words times the word size. */
  lemma WordsAndBytesAgree(g: Geometry)
    requires Valid(g)
    ensures g.sizeBytes == g.sizeWords * HeapWordSize
  {
    Pow2Add(g.wordsShift, LogHeapWordSize);
    assert g.bytesShift == g.wordsShift + LogHeapWordSize;
    assert Pow2(LogHeapWordSize) == HeapWordSize;
  }

  /**
    `required_regions`: round the byte count up to whole regions by adding
    `size - 1` and shifting. The addition is on `size_t` and wraps.
   */
  function RequiredRegions(g: Geometry, bytes: nat): (n: nat)
    requires Valid(g) && IsSizeT(bytes)
    ensures bytes + g.sizeBytes - 1 < SizeTModulus ==>
      n * g.sizeBytes >= bytes && (n == 0 || (n - 1) * g.sizeBytes < bytes)
  {
    var sum := (bytes + g.sizeBytes - 1) % SizeTModulus;
    var n := ShiftRight(sum, g.bytesShift);
    CeilingBounds(bytes, g.sizeBytes, n, sum);
    n
  }

  /** A quotient of `b + d - 1` by `d`, when that sum did not wrap, is the ceiling of `b / d`. */
  lemma CeilingBounds(b: nat, d: nat, q: nat, sum: nat)
    requires d >= 1
    requires sum == (b + d - 1) % SizeTModulus
    requires q * d <= sum < (q + 1) * d
    ensures b + d - 1 < SizeTModulus ==> q * d >= b && (q == 0 || (q - 1) * d < b)
  {
    if b + d - 1 < SizeTModulus {
      assert sum == b + d - 1;
      MulDistrib(q, 1, d);
      if q > 0 {
        MulDistrib(q - 1, 1, d);
      }
    }
  }

  lemma MulMonotone(a: nat, b: nat, c: nat)
    requires a <= b
    ensures a * c <= b * c
  {
    MulDistrib(a, b - a, c);
  }

  /** `required_regions` is the least number of regions that covers the bytes. */
  lemma RequiredRegionsIsLeast(g: Geometry, bytes: nat, n: nat)
    requires Valid(g) && IsSizeT(bytes)
    requires bytes + g.sizeBytes - 1 < SizeTModulus
    requires n * g.sizeBytes >= bytes
    ensures RequiredRegions(g, bytes) <= n
  {
    var r := RequiredRegions(g, bytes);
    if r > n {
      MulMonotone(n, r - 1, g.sizeBytes);
      assert false;
    }
  }

  /** `requires_humongous`: more words than one region holds. */
  predicate RequiresHumongous(g: Geometry, words: nat) {
    words > g.sizeWords
  }

  /** An allocation is humongous exactly when its bytes do not fit in one region. */
  lemma HumongousIffMoreBytesThanRegion(g: Geometry, words: nat)
    requires Valid(g)
    ensures RequiresHumongous(g, words) <==> words * HeapWordSize > g.sizeBytes
  {
    WordsAndBytesAgree(g);
    if words > g.sizeWords {
      MulMonotone(g.sizeWords + 1, words, HeapWordSize);
    } else {
      MulMonotone(words, g.sizeWords, HeapWordSize);
    }
  }

  /**
    When the rounding sum does not wrap, an allocation is humongous exactly
    when it needs more than one region.
   */
  lemma {:induction false} HumongousIffSeveralRegions(g: Geometry, words: nat)
    requires Valid(g) && IsSizeT(words * HeapWordSize)
    requires words * HeapWordSize + g.sizeBytes - 1 < SizeTModulus
    ensures RequiresHumongous(g, words) <==> RequiredRegions(g, words * HeapWordSize) > 1
  {
    HumongousIffMoreBytesThanRegion(g, words);
    var b := words * HeapWordSize;
    var d := g.sizeBytes;
    var r := RequiredRegions(g, b);
    if r > 1 {
      MulMonotone(1, r - 1, d);
    }
    if b > d && r <= 1 {
      MulMonotone(r, 1, d);
      assert false;
    }
  }
}
