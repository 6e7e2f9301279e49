/**
  The configuration arithmetic of `initializeCache`: from the cache size, the
  block size, the mapping type, the main-memory size and (for a set-associative
  cache) the associativity typed in by the user, it derives the number of sets,
  the associativity and the widths of the offset ("block"), set and tag fields.

  Each width follows the source's arithmetic: `log2` of a count stored in an
  `int` field is its floor (`Log2`), while the tag width subtracts the other
  widths from the real logarithm of the memory size and only then truncates
  toward zero (`TruncLog2Minus`). The two readings part only when the
  difference is negative and the memory size is not a power of two. Two
  oddities of the source are kept and made explicit by the lemmas below:
  - the set-associative tag width leaves out the block bits, so the three
    widths add up to more than log2 of the main-memory size;
  - the fully-associative branch never assigns the set width, so it holds
    whatever the allocator left there (modelled as `None`).
 */
module CacheGeometry {
  import opened Wrappers
  import opened Powers

  /** The source's mapping-type codes; any code other than these two selects
      the fully-associative branch. */
  const DirectMapped: int := 1
  const SetAssociative: int := 2
  const FullyAssociative: int := 3

  /** The configuration part of the source's `Cache` record. */
  datatype Geometry = Geometry(
    cacheSize: nat,
    blockSize: nat,
    numSets: nat,
    associativity: nat,
    blockBits: nat,
    setBits: Option<nat>,  // None: never assigned (fully associative)
    tagBits: int           // negative when the memory is too small for the other fields
  )

  /** What the source needs of its arguments to stay clear of a division by
      zero and of `log2(0)`: positive sizes, a block no larger than the cache
      and, for a set-associative cache, a positive associativity whose sets
      still fit in the cache. */
  predicate Admissible(cacheSize: nat, blockSize: nat, mappingType: int, mainMemorySize: nat, assocInput: nat)
  {
    && 1 <= blockSize <= cacheSize
    && 1 <= mainMemorySize
    && (mappingType == SetAssociative ==> 1 <= assocInput && blockSize * assocInput <= cacheSize)
  }

  /** The geometry `initializeCache` computes. `assocInput` is the value the
      source reads from the user in the set-associative branch; it is ignored
      in the other two. */
  function Derive(cacheSize: nat, blockSize: nat, mappingType: int, mainMemorySize: nat, assocInput: nat): (g: Geometry)
    requires Admissible(cacheSize, blockSize, mappingType, mainMemorySize, assocInput)
    ensures g.cacheSize == cacheSize && g.blockSize == blockSize
    ensures g.numSets >= 1 && g.associativity >= 1
    ensures g.associativity <= g.numSets * g.associativity
  {
    if mappingType == DirectMapped then
      var numSets := cacheSize / blockSize;
      DivPositive(cacheSize, blockSize);
      Geometry(cacheSize, blockSize, numSets, 1,
               Log2(blockSize), Some(Log2(numSets)),
               TruncLog2Minus(mainMemorySize, Log2(numSets) + Log2(blockSize)))
    else if mappingType == SetAssociative then
      MulBound(assocInput, blockSize);
      var numSets := cacheSize / (blockSize * assocInput);
      DivPositive(cacheSize, blockSize * assocInput);
      MulBound(numSets, assocInput);
      Geometry(cacheSize, blockSize, numSets, assocInput,
               Log2(blockSize), Some(Log2(numSets)),
               TruncLog2Minus(mainMemorySize, Log2(numSets)))
    else
      DivPositive(cacheSize, blockSize);
      Geometry(cacheSize, blockSize, 1, cacheSize / blockSize,
               Log2(blockSize), None,
               TruncLog2Minus(mainMemorySize, Log2(blockSize)))
  }

  // ---------------------------------------------------------------------
  // The formulas, branch by branch. The widths add up as the comments say
  // whenever the memory size is a power of two or leaves room for the
  // fields; otherwise the truncated tag width is one more.

  lemma DirectMappedGeometry(cacheSize: nat, blockSize: nat, mainMemorySize: nat, assocInput: nat)
    requires Admissible(cacheSize, blockSize, DirectMapped, mainMemorySize, assocInput)
    ensures var g := Derive(cacheSize, blockSize, DirectMapped, mainMemorySize, assocInput);
      && g.numSets == cacheSize / blockSize
      && g.associativity == 1
      && g.setBits.Some?
      && (g.blockBits + g.setBits.value + g.tagBits == Log2(mainMemorySize)
          <==> IsPow2(mainMemorySize) || g.blockBits + g.setBits.value <= Log2(mainMemorySize))
      && g.blockBits + g.setBits.value + g.tagBits <= Log2(mainMemorySize) + 1
  {
  }

  /** As written, the set-associative tag width is `log2(memory) - set bits`:
      the three widths overshoot log2 of the memory size by the block bits. */
  lemma SetAssociativeGeometry(cacheSize: nat, blockSize: nat, mainMemorySize: nat, assocInput: nat)
    requires Admissible(cacheSize, blockSize, SetAssociative, mainMemorySize, assocInput)
    ensures var g := Derive(cacheSize, blockSize, SetAssociative, mainMemorySize, assocInput);
      && g.numSets == cacheSize / (blockSize * assocInput)
      && g.associativity == assocInput
      && g.setBits.Some?
      && (g.blockBits + g.setBits.value + g.tagBits == Log2(mainMemorySize) + g.blockBits
          <==> IsPow2(mainMemorySize) || g.setBits.value <= Log2(mainMemorySize))
      && g.blockBits + g.setBits.value + g.tagBits <= Log2(mainMemorySize) + g.blockBits + 1
  {
  }

  lemma FullyAssociativeGeometry(cacheSize: nat, blockSize: nat, mappingType: int, mainMemorySize: nat, assocInput: nat)
    requires mappingType != DirectMapped && mappingType != SetAssociative
    requires Admissible(cacheSize, blockSize, mappingType, mainMemorySize, assocInput)
    ensures var g := Derive(cacheSize, blockSize, mappingType, mainMemorySize, assocInput);
      && g.numSets == 1
      && g.associativity == cacheSize / blockSize
      && g.setBits.None?
      && (g.tagBits == Log2(mainMemorySize) - g.blockBits
          <==> IsPow2(mainMemorySize) || g.blockBits <= Log2(mainMemorySize))
      && g.tagBits <= Log2(mainMemorySize) - g.blockBits + 1
  {
  }

  // ---------------------------------------------------------------------
  // The widths on power-of-two configurations

  /** Direct mapped, sizes 2^c, 2^b, 2^m: offset b bits, set c-b bits, tag
      m-c bits, and one block per set. */
  lemma DirectMappedPow2(c: nat, b: nat, m: nat)
    requires b <= c
    ensures Pow2(b) <= Pow2(c)
    ensures var g := Derive(Pow2(c), Pow2(b), DirectMapped, Pow2(m), 0);
      && g.numSets == Pow2(c - b)
      && g.numSets * g.associativity == Pow2(c) / Pow2(b)
      && g.blockBits == b
      && g.setBits == Some(c - b)
      && g.tagBits == m - c
  {
    Pow2Monotone(b, c);
    Pow2Div(c, b);
    Log2Pow2(b);
    Log2Pow2(c - b);
    Log2Pow2(m);
  }

  /** Set associative, sizes 2^c, 2^b, 2^m and associativity 2^a: the sets
      number 2^(c-b-a) and the tag width is m-(c-b-a), which is b more than
      the address leaves after the offset and set fields. */
  lemma SetAssociativePow2(c: nat, b: nat, a: nat, m: nat)
    requires b + a <= c
    ensures Pow2(b) * Pow2(a) <= Pow2(c)
    ensures var g := Derive(Pow2(c), Pow2(b), SetAssociative, Pow2(m), Pow2(a));
      && g.numSets == Pow2(c - b - a)
      && g.numSets * g.associativity == Pow2(c) / Pow2(b)
      && g.blockBits == b
      && g.setBits == Some(c - b - a)
      && g.tagBits == m - (c - b - a)
      && g.tagBits == (m - b - (c - b - a)) + b
  {
    Pow2Add(b, a);
    Pow2Monotone(b + a, c);
    Pow2Div(c, b + a);
    Pow2Add(c - b - a, a);
    Pow2Div(c, b);
    Log2Pow2(b);
    Log2Pow2(c - b - a);
    Log2Pow2(m);
  }

  /** Fully associative, sizes 2^c, 2^b, 2^m: one set of 2^(c-b) blocks,
      offset b bits, tag m-b bits. */
  lemma FullyAssociativePow2(c: nat, b: nat, m: nat)
    requires b <= c
    ensures Pow2(b) <= Pow2(c)
    ensures var g := Derive(Pow2(c), Pow2(b), FullyAssociative, Pow2(m), 0);
      && g.numSets == 1
      && g.associativity == Pow2(c - b)
      && g.numSets * g.associativity == Pow2(c) / Pow2(b)
      && g.blockBits == b
      && g.tagBits == m - b
  {
    Pow2Monotone(b, c);
    Pow2Div(c, b);
    Log2Pow2(b);
    Log2Pow2(m);
  }

  /** A 1 KiB direct-mapped cache of 64-byte blocks over 64 KiB of memory. */
  lemma DirectMappedExample()
    ensures Derive(1024, 64, DirectMapped, 65536, 0) == Geometry(1024, 64, 16, 1, 6, Some(4), 6)
  {
  }

  /** A 256-byte fully-associative cache of 64-byte blocks: one set of four. */
  lemma FullyAssociativeExample(mainMemorySize: nat)
    requires mainMemorySize >= 1
    ensures var g := Derive(256, 64, FullyAssociative, mainMemorySize, 0);
      g.numSets == 1 && g.associativity == 4 && g.blockBits == 6
  {
  }

  /** A memory of 1000 bytes under a 1 KiB direct-mapped cache of 64-byte
      blocks: log2(1000) - 4 - 6 is about -0.03, which truncates to 0, one
      more than the floor-first difference 9 - 4 - 6. */
  lemma NonPowerOfTwoMemory()
    ensures Log2(1000) - 4 - 6 == -1
    ensures Derive(1024, 64, DirectMapped, 1000, 0) == Geometry(1024, 64, 16, 1, 6, Some(4), 0)
  {
  }
}
