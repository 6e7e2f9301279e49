/**
  Worked configurations: the block array a constructed cache starts from and
  the outcomes of short address sequences on it.
 */
module CacheScenarios {
  import opened Wrappers
  import opened CacheGeometry
  import opened CacheModel
  import opened CacheLaws

  /** The 1 KiB direct-mapped cache of 64-byte blocks over 64 KiB of memory:
      16 one-way sets. */
  function DirectMapped1K(): Geometry
  {
    Derive(1024, 64, DirectMapped, 65536, 0)
  }

  /** On that cache, block 0 fills slot 0 and block 16 (address 1024)
      evicts it. */
  lemma DirectMappedConflict(rnd0: nat, rnd1: nat)
    ensures var g := DirectMapped1K();
      Run(Initial(g), g.associativity, g.blockSize, NoAccesses, [Request(0, rnd0), Request(1024, rnd1)])
         == Trace(seq(16, i => if i == 0 then Block(true, 16, true) else Empty),
                  Stats(0, 2, 1),
                  [MissFilled(0), MissEvicted(0, 0, true)])
  {
    DirectMappedExample();
    var empty := seq(16, _ => Empty);
    assert Initial(DirectMapped1K()) == empty;
    assert FindInvalid(empty, 1, 0) == Some(0);
    var filled := empty[0 := Block(true, 0, true)];
    assert Step(empty, 1, 0, rnd0) == Transition(MissFilled(0), filled);
    assert FindMatch(filled, 1, 16, 0).None? && FindInvalid(filled, 1, 0).None?;
    var evicted := filled[0 := Block(true, 16, true)];
    assert Step(filled, 1, 16, rnd1) == Transition(MissEvicted(0, 0, true), evicted);
    assert evicted == seq(16, i => if i == 0 then Block(true, 16, true) else Empty);
    var reqs := [Request(0, rnd0), Request(1024, rnd1)];
    assert reqs[1..] == [Request(1024, rnd1)] && reqs[1..][1..] == [];
    assert Run(evicted, 1, 64, Stats(0, 2, 1), []) == Trace(evicted, Stats(0, 2, 1), []);
    assert Run(filled, 1, 64, Stats(0, 1, 0), reqs[1..]) == Trace(evicted, Stats(0, 2, 1), [MissEvicted(0, 0, true)]);
  }

  /** As written, blocks 0 and 1 also compete for slot 0, although block 1
      belongs to the second set of a direct-mapped cache: no access looks
      past the first `associativity` slots. */
  lemma DirectMappedIgnoresSets(rnd0: nat, rnd1: nat)
    ensures var g := DirectMapped1K();
      Run(Initial(g), g.associativity, g.blockSize, NoAccesses, [Request(0, rnd0), Request(64, rnd1)]).outcomes
         == [MissFilled(0), MissEvicted(0, 0, true)]
  {
  }

  /** The same address twice on a freshly built cache of any admissible
      configuration: a fill, then a hit. */
  lemma RepeatedAddress(cacheSize: nat, blockSize: nat, mappingType: int, mainMemorySize: nat, assocInput: nat,
                        address: nat, rnd0: nat, rnd1: nat)
    requires Admissible(cacheSize, blockSize, mappingType, mainMemorySize, assocInput)
    ensures var g := Derive(cacheSize, blockSize, mappingType, mainMemorySize, assocInput);
      Run(Initial(g), g.associativity, g.blockSize, NoAccesses, [Request(address, rnd0), Request(address, rnd1)]).outcomes
         == [MissFilled(0), Hit(0)]
  {
  }

  /** Fully associative, 256 bytes of 64-byte blocks over any memory: four
      distinct blocks fill slots 0 to 3 of the single set and a fifth
      evicts slot `rnd % 4`. */
  lemma FullyAssociativeFillThenEvict(mainMemorySize: nat, rnd: seq<nat>)
    requires mainMemorySize >= 1 && |rnd| == 5
    ensures var g := Derive(256, 64, FullyAssociative, mainMemorySize, 0);
      var reqs := seq(5, m requires 0 <= m < 5 => Request(64 * m, rnd[m]));
      var r := Run(Initial(g), g.associativity, g.blockSize, NoAccesses, reqs);
      && r.outcomes[..4] == [MissFilled(0), MissFilled(1), MissFilled(2), MissFilled(3)]
      && r.outcomes[4].MissEvicted? && r.outcomes[4].way == rnd[4] % 4
  {
    FullyAssociativeExample(mainMemorySize);
    var reqs := seq(5, m requires 0 <= m < 5 => Request(64 * m, rnd[m]));
    FullSetEvicts(4, 4, 64, NoAccesses, reqs[..4], reqs[4]);
    assert reqs[..4] + [reqs[4]] == reqs;
  }

  /** A client of the cache object: the geometry of a 1 KiB direct-mapped
      cache, and the fill and eviction of its single usable slot. */
  method DirectMappedSession()
  {
    DirectMappedExample();
    var cache := new Cache(1024, 64, DirectMapped, 65536, 0);
    assert cache.geometry == DirectMapped1K();
    assert cache.geometry.associativity == 1 && cache.blocks.Length == 16;
    var o1, s1 := cache.Access(0, NoAccesses, 5);
    assert o1 == MissFilled(0);
    var o2, s2 := cache.Access(1024, s1, 9);
    assert o2 == MissEvicted(0, 0, true);
    assert s2 == Stats(0, 2, 1);
    var o3, s3 := cache.Access(1024 + 63, s2, 0);
    assert o3 == Hit(0) && s3 == Stats(1, 2, 1);
  }
}
