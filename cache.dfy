/**
  The cache of `Cache.c`: a block array built by `initializeCache` and the
  access step `accessCache`, which looks an address up, fills an empty slot
  on a miss and otherwise overwrites a randomly chosen slot, counting hits,
  misses and evictions.

  As in the source, an access never computes a set index: it looks only at
  the first `associativity` slots of the block array, whatever the mapping.
  A direct-mapped cache therefore uses slot 0 alone, and the slots from
  `associativity` on are never read or written.

  Each access is specified by the pure function `Step` on the sequence of
  slots. `Access` is proved to perform `Step` in place on the array, and the
  properties of the cache are lemmas about `Step` and its iteration `Run`.
 */
module CacheModel {
  import opened Wrappers
  import opened CacheGeometry

  /** One entry of the block array; the data payload is never used. */
  datatype Block = Block(valid: bool, tag: int, dirty: bool)

  /** The state `initializeCache` gives every block. */
  const Empty := Block(false, -1, false)

  /** The counters the source keeps through pointers. */
  datatype Stats = Stats(hits: nat, misses: nat, evictions: nat)

  const NoAccesses := Stats(0, 0, 0)

  /** What an access reports: the slot it hit, the empty slot it filled, or
      the slot it overwrote with that slot's previous tag and dirty bit (a
      dirty one is the source's "writing back" case). */
  datatype Outcome =
    | Hit(way: nat)
    | MissFilled(way: nat)
    | MissEvicted(way: nat, evictedTag: int, evictedDirty: bool)

  datatype Transition = Transition(outcome: Outcome, slots: seq<Block>)

  /** A valid block holding `tag`. */
  predicate Holds(b: Block, tag: int)
  {
    b.valid && b.tag == tag
  }

  /** The lowest slot in `[from, ways)` that holds `tag`. */
  function FindMatch(slots: seq<Block>, ways: nat, tag: int, from: nat): (r: Option<nat>)
    requires from <= ways <= |slots|
    ensures r.Some? ==> from <= r.value < ways && Holds(slots[r.value], tag)
    ensures r.Some? ==> forall j :: from <= j < r.value ==> !Holds(slots[j], tag)
    ensures r.None? ==> forall j :: from <= j < ways ==> !Holds(slots[j], tag)
    decreases ways - from
  {
    if from == ways then None
    else if Holds(slots[from], tag) then Some(from)
    else FindMatch(slots, ways, tag, from + 1)
  }

  /** The lowest invalid slot in `[from, ways)`. */
  function FindInvalid(slots: seq<Block>, ways: nat, from: nat): (r: Option<nat>)
    requires from <= ways <= |slots|
    ensures r.Some? ==> from <= r.value < ways && !slots[r.value].valid
    ensures r.Some? ==> forall j :: from <= j < r.value ==> slots[j].valid
    ensures r.None? ==> forall j :: from <= j < ways ==> slots[j].valid
    decreases ways - from
  {
    if from == ways then None
    else if !slots[from].valid then Some(from)
    else FindInvalid(slots, ways, from + 1)
  }

  /** One access to the block with number `tag`, on the slots of the block
      array, where `ways` is the associativity and `rnd` the value `rand()`
      returns. */
  function Step(slots: seq<Block>, ways: nat, tag: int, rnd: nat): (t: Transition)
    requires 1 <= ways <= |slots|
    ensures |t.slots| == |slots|
  {
    match FindMatch(slots, ways, tag, 0)
    case Some(i) => Transition(Hit(i), slots)
    case None =>
      match FindInvalid(slots, ways, 0)
      case Some(i) => Transition(MissFilled(i), slots[i := Block(true, tag, true)])
      case None =>
        var v := rnd % ways;
        Transition(MissEvicted(v, slots[v].tag, slots[v].dirty),
                   slots[v := slots[v].(tag := tag, dirty := true)])
  }

  /** The counters after an access with the given outcome. */
  function Tally(stats: Stats, outcome: Outcome): (r: Stats)
  {
    match outcome
    case Hit(_) => stats.(hits := stats.hits + 1)
    case MissFilled(_) => stats.(misses := stats.misses + 1)
    case MissEvicted(_, _, _) => stats.(misses := stats.misses + 1, evictions := stats.evictions + 1)
  }

  /** The block array `initializeCache` builds for a geometry: one empty
      block per slot of every set. */
  function Initial(g: Geometry): seq<Block>
  {
    seq(g.numSets * g.associativity, _ => Empty)
  }

  // ---------------------------------------------------------------------
  // The block array

  class Cache {
    const geometry: Geometry
    const blocks: array<Block>

    predicate Valid()
    {
      1 <= geometry.associativity <= blocks.Length && 1 <= geometry.blockSize
    }

    /** `initializeCache`; `assocInput` is the associativity the source reads
        from the user in the set-associative case. */
    constructor (cacheSize: nat, blockSize: nat, mappingType: int, mainMemorySize: nat, assocInput: nat)
      requires Admissible(cacheSize, blockSize, mappingType, mainMemorySize, assocInput)
      ensures geometry == Derive(cacheSize, blockSize, mappingType, mainMemorySize, assocInput)
      ensures blocks.Length == geometry.numSets * geometry.associativity
      ensures forall i :: 0 <= i < blocks.Length ==> blocks[i] == Empty
      ensures blocks[..] == Initial(geometry)
      ensures Valid() && fresh(blocks)
    {
      var g := Derive(cacheSize, blockSize, mappingType, mainMemorySize, assocInput);
      var n := g.numSets * g.associativity;
      var a := new Block[n];
      for i := 0 to n
        invariant forall j :: 0 <= j < i ==> a[j] == Empty
      {
        a[i] := Empty;
      }
      geometry := g;
      blocks := a;
    }

    /** `accessCache`: the counters come in as `stats` and go out as
        `stats'`; `rnd` is the value `rand()` returns. */
    method Access(address: nat, stats: Stats, rnd: nat) returns (outcome: Outcome, stats': Stats)
      requires Valid()
      modifies blocks
      ensures Transition(outcome, blocks[..])
           == Step(old(blocks[..]), geometry.associativity, address / geometry.blockSize, rnd)
      ensures stats' == Tally(stats, outcome)
    {
      var ways := geometry.associativity;
      var tag := address / geometry.blockSize;
      ghost var before := blocks[..];
      var i := 0;
      while i < ways
        invariant 0 <= i <= ways
        invariant forall j :: 0 <= j < i ==> !Holds(blocks[j], tag)
      {
        if blocks[i].valid && blocks[i].tag == tag {
          outcome, stats' := Hit(i), stats.(hits := stats.hits + 1);
          return;
        }
        i := i + 1;
      }
      assert FindMatch(before, ways, tag, 0).None?;
      stats' := stats.(misses := stats.misses + 1);
      i := 0;
      while i < ways
        invariant 0 <= i <= ways
        invariant forall j :: 0 <= j < i ==> blocks[j].valid
      {
        if !blocks[i].valid {
          blocks[i] := Block(true, tag, true);
          outcome := MissFilled(i);
          return;
        }
        i := i + 1;
      }
      stats' := stats'.(evictions := stats'.evictions + 1);
      var victim := rnd % ways;
      outcome := MissEvicted(victim, blocks[victim].tag, blocks[victim].dirty);
      blocks[victim] := blocks[victim].(tag := tag, dirty := true);
    }
  }
}
