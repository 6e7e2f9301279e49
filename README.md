# Cache-memory simulator, modelled in Dafny

This project models the core of a small C cache-memory simulator (`Cache.c`).
The model covers three parts:

- **Geometry** (`initializeCache`). From the cache size, block size, mapping
  type (1 direct mapped, 2 set associative, anything else fully associative),
  main-memory size and, for a set-associative cache, a user-supplied
  associativity, it derives:
  - the number of sets and the associativity;
  - the widths of the block-offset, set and tag fields.

  It then allocates `num_sets * associativity` blocks, each invalid, clean and
  with tag -1.
- **Access** (`accessCache`). The block number `address / block_size` serves
  as the tag. The first `associativity` slots are scanned for a valid block
  with that tag. A match counts a hit. Otherwise the access counts a miss and
  fills the first invalid slot (valid, dirty). When every slot is valid, it
  counts an eviction and overwrites the slot `rand() % associativity`
  (dirty, still valid).
- **Bit strings** (`decToBinary`). The low `bits` bits of a number are written
  most significant bit first into a fresh buffer, followed by a NUL.

Files and modules:

- `powers.dfy` (`Powers`): powers of two, integer `Log2` and `CeilLog2`, the
  truncated tag-width difference, division facts.
- `geometry.dfy` (`CacheGeometry`): `Derive` and the width lemmas.
- `binary.dfy` (`Binary`): `DecToBinary` and the numeral it writes.
- `cache.dfy` (`CacheModel`):
  - the class `Cache`: its constructor is `initializeCache`, its `Access` is
    `accessCache`;
  - the pure function `Step` that specifies one access on the sequence of
    slots.
- `cache_laws.dfy` (`CacheLaws`): lemmas about `Step`, and `Run`, a sequence
  of accesses like the one the driver loop performs.
- `scenarios.dfy` (`CacheScenarios`): worked configurations and a client of
  the `Cache` class.
- `wrappers.dfy` (`Wrappers`): `Option`.

The model follows the C code as written, including where it departs from the
intended per-set design:

- An access never computes a set index. It reads and writes only the slots
  below `associativity`. A direct-mapped cache (associativity 1) therefore
  uses slot 0 alone (`StepReadsOnlyWays`, `DirectMappedIgnoresSets`).
- The set-associative tag width is `log2(memory) - set_bits`. It omits the
  block bits, so the three widths add up to `log2(memory) + block_bits`
  (`SetAssociativeGeometry`, `SetAssociativePow2`).
- The fully-associative branch never assigns `set_bits`. The model holds
  `None` there.
- The offset and set widths are `log2` of an `int` count stored in an `int`
  field, which is the floor of the logarithm (`Log2`). The tag width
  subtracts those widths from the real `log2` of the memory size and only
  then truncates toward zero (`TruncLog2Minus`). When the memory size is not
  a power of two and leaves no room for the other fields, that truncation
  rounds up, so the tag width is one more than the floor-first difference
  (`NonPowerOfTwoMemory`: 1000 bytes under a 1 KiB cache give a tag width
  of 0, not -1).
- Every fill and every overwrite marks the block dirty. No clean valid state
  is ever reached (`StepKeepsDirty`, `RunKeepsShape`).
- The code validates nothing. Inputs for which it would divide by zero or
  take `log2(0)` are excluded by the precondition `Admissible`, not reported
  as configuration errors.
- `accessCache` returns nothing. It prints what happened. The model returns an
  `Outcome`, which is that report as a value: the slot hit, the slot filled,
  or the slot evicted with its previous tag and dirty bit.

Nondeterminism and I/O become parameters:

- The associativity typed in at `Cache.c:53` is the constructor's `assocInput`.
- The value `rand()` returns is the parameter `rnd`.
- The counters that `accessCache` updates through pointers come in as a
  `Stats` value and go out as a new one.

## Model

| member | source | states |
|---|---|---|
| `Powers.Log2` | Cache.c:48-50 | `(int) log2(n)` for a positive integer is the unique `r` with `2^r <= n < 2^(r+1)` |
| `Powers.Log2Pow2` | Cache.c:48 | on a power of two `2^k` the logarithm is exactly `k` |
| `Powers.CeilLog2` | Cache.c:50 | the ceiling of the logarithm: the least `r` with `n <= 2^r` |
| `Powers.TruncLog2Minus` | Cache.c:50 | `(int)(log2(n) - k)`: equals the floor-first `Log2(n) - k` if and only if `k <= Log2(n)` or `n` is a power of two, and is otherwise one more |
| `Powers.TruncLog2MinusPow2` | Cache.c:50 | on a memory of `2^m` bytes the truncated tag width is exactly `m - k` |
| `CacheGeometry.Derive` | Cache.c:41-63 | the derived geometry keeps the cache and block sizes, has at least one set and one way, and `num_sets * associativity >= associativity` |
| `CacheGeometry.DirectMappedGeometry` | Cache.c:45-50 | direct mapped: `num_sets = cache/block`, associativity 1, block + set + tag bits `== log2(memory)` if and only if the memory size is a power of two or at least `2^(block + set bits)`, and at most one more otherwise |
| `CacheGeometry.SetAssociativeGeometry` | Cache.c:51-57 | set associative: `num_sets = cache/(block*assoc)`, associativity as typed in, and block + set + tag bits `== log2(memory) + block bits` (tag omits the offset) if and only if the memory size is a power of two or at least `2^(set bits)`, and at most one more otherwise |
| `CacheGeometry.FullyAssociativeGeometry` | Cache.c:58-63 | any other mapping code: one set, `associativity = cache/block`, set width never assigned, `tag = log2(memory) - block bits` if and only if the memory size is a power of two or at least the block size, and at most one more otherwise |
| `CacheGeometry.DirectMappedPow2` | Cache.c:45-50 | sizes `2^c, 2^b, 2^m`: `2^(c-b)` sets of one block, offset `b`, set `c-b`, tag `m-c` bits |
| `CacheGeometry.SetAssociativePow2` | Cache.c:51-57 | sizes `2^c, 2^b, 2^m`, associativity `2^a`: `2^(c-b-a)` sets, `2^(c-b)` blocks, offset `b`, set `c-b-a`, tag `m-(c-b-a)` bits, `b` more than the address leaves |
| `CacheGeometry.FullyAssociativePow2` | Cache.c:58-63 | sizes `2^c, 2^b, 2^m`: one set of `2^(c-b)` ways, offset `b`, tag `m-b` bits |
| `CacheGeometry.DirectMappedExample` | Cache.c:45-50 | 1024-byte cache, 64-byte blocks, 65536-byte memory, direct mapped: 16 sets, 1 way, 6/4/6 bits |
| `CacheGeometry.FullyAssociativeExample` | Cache.c:58-62 | 256-byte fully-associative cache of 64-byte blocks: one set of 4 ways, 6 offset bits |
| `CacheGeometry.NonPowerOfTwoMemory` | Cache.c:45-50 | 1024-byte direct-mapped cache of 64-byte blocks over 1000 bytes of memory: 16 sets, 6/4 bits, and a tag width of 0 where the floor-first difference is -1 |
| `Binary.ToBinary` | Cache.c:28-38 | the numeral of `n` has exactly `bits` characters, each '0' or '1' |
| `Binary.ShrIsDiv` | Cache.c:31 | `n >> i` on a non-negative `n` is `n / 2^i` |
| `Binary.ToBinaryAt` | Cache.c:30-36 | the character at `bits-1-i` is '1' or '0' as bit 0 of `n >> i` is set or not |
| `Binary.BitAt` | Cache.c:30-36 | the character at `bits-1-i` is '1' if and only if bit `i` of `n` (`(n / 2^i) % 2`) is set |
| `Binary.FromToBinary` | Cache.c:28-38 | reading the numeral back yields `n mod 2^bits` |
| `Binary.FromToBinaryExact` | Cache.c:28-38 | for `n < 2^bits` the numeral reads back as `n` |
| `Binary.ToFromBinary` | Cache.c:28-38 | every string of '0'/'1' is the numeral of its own value |
| `Binary.DecToBinary` | Cache.c:28-39 | the buffer has `bits + 1` characters: the numeral of `n` followed by NUL |
| `CacheModel.FindMatch` | Cache.c:85-91 | the first-scan result is the lowest slot below `associativity` holding the tag validly, or none exists |
| `CacheModel.FindInvalid` | Cache.c:94-102 | the second-scan result is the lowest invalid slot below `associativity`, or all of them are valid |
| `CacheModel.Step` | Cache.c:82-112 | one access keeps the number of slots (its behaviour is stated by the `CacheLaws` lemmas) |
| `CacheModel.Cache.constructor` | Cache.c:41-80 | the geometry is `Derive` of the arguments; the fresh block array is `Initial` of it: `num_sets * associativity` entries, each invalid, tag -1, clean |
| `CacheModel.Cache.Access` | Cache.c:82-112 | the outcome and the new block array are `Step` of the old array with tag `address / block_size` and `rnd`; the counters are updated by the outcome |
| `CacheLaws.StepClassifies` | Cache.c:85-111 | hit iff a slot below `associativity` validly holds the tag; fill iff none does and one is invalid; eviction iff none does and all are valid |
| `CacheLaws.StepHit` | Cache.c:85-90 | a hit reports the lowest matching slot and leaves the block array unchanged |
| `CacheLaws.StepFill` | Cache.c:92-101 | a fill takes the lowest invalid slot, sets it valid, dirty and to the tag, and changes no other slot |
| `CacheLaws.StepEvict` | Cache.c:103-111 | an eviction overwrites slot `rnd % associativity`, which was and stays valid, reports its old tag and dirty bit, and changes no other slot |
| `CacheLaws.StepFrame` | Cache.c:85-111 | at most the reported slot changes, and it lies below `associativity` |
| `CacheLaws.StepReadsOnlyWays` | Cache.c:85-110 | slots at or above `associativity` are never read: arrays agreeing below it give the same outcome and new slots |
| `CacheLaws.StepKeepsValid` | Cache.c:94-110 | no access makes a valid slot invalid |
| `CacheLaws.StepThenHit` | Cache.c:85-111 | after any access the tag sits validly in the reported slot, and repeating the access hits that slot and changes nothing |
| `CacheLaws.TallyCounts` | Cache.c:87-103 | the counter update `CacheModel.Tally`: each access adds one to exactly one of hits and misses, and one eviction exactly when it evicts |
| `CacheLaws.EmptyIsOrderly` | Cache.c:72-78 | the initial block array is orderly (valid slots first, no tag twice) and has no valid clean block |
| `CacheLaws.StepKeepsOrderly` | Cache.c:85-111 | an access keeps the slots below `associativity` orderly |
| `CacheLaws.StepKeepsDirty` | Cache.c:96-109 | every fill and every overwrite sets the dirty bit, so an access never leaves a valid block clean |
| `CacheLaws.Run` | Cache.c:142-145 | a sequence of accesses keeps the number of slots and yields one outcome per access |
| `CacheLaws.RunCounts` | Cache.c:142-145 | over a run, hits plus misses grow by the number of accesses and evictions by no more than misses |
| `CacheLaws.RunFromZero` | Cache.c:123-145 | from zero counters, `hits + misses == accesses` and `evictions <= misses` |
| `CacheLaws.RunKeepsShape` | Cache.c:85-111 | a run keeps the array orderly, never invalidates a slot, keeps every valid block dirty, and leaves the slots from `associativity` on untouched |
| `CacheLaws.FillsInOrder` | Cache.c:94-101 | with slots `k..associativity-1` empty, requests for new distinct blocks fill slots `k, k+1, ...` in turn with valid dirty blocks of those tags |
| `CacheLaws.FullSetEvicts` | Cache.c:94-111 | from an empty array, `associativity` distinct blocks fill slots 0.. in order and one more distinct block evicts slot `rnd % associativity` |
| `CacheLaws.RunSplit` | Cache.c:142-145 | running two request lists in turn is running their concatenation |
| `CacheScenarios.DirectMappedConflict` | Cache.c:82-112 | on the initial array of the geometry derived for 1024/64/65536 direct mapped: addresses 0 then 1024 fill slot 0 then evict it, counters 0/2/1 |
| `CacheScenarios.DirectMappedIgnoresSets` | Cache.c:83-85 | on the same derived 1024/64/65536 direct-mapped geometry, addresses 0 and 64 (different sets in a per-set design) also fill and then evict slot 0 |
| `CacheScenarios.RepeatedAddress` | Cache.c:85-101 | the same address twice on the initial array of any admissible configuration: fill slot 0, then hit slot 0 |
| `CacheScenarios.FullyAssociativeFillThenEvict` | Cache.c:94-111 | geometry derived for a 256-byte fully-associative cache of 64-byte blocks over any memory: four distinct blocks fill slots 0-3, a fifth evicts slot `rnd % 4` |

## Left out

- Interactive I/O: `main`'s prompts and `scanf` calls, every `printf`, and
  `printCacheContents`, which only prints. The associativity read at
  Cache.c:53 is the constructor's parameter. The word offset at Cache.c:88
  and Cache.c:93 is only printed, so it is not modelled.
- Hit and miss ratios (Cache.c:146-147): floating-point reporting.
- `rand()`: its value is the parameter `rnd` of `Access`, `Step` and `Run`.
- The per-block `data` buffer (Cache.c:77). Nothing reads or writes it.
  Allocation failure of any `malloc` is not modelled either.
- C `int` width: sizes, addresses, counters and tags are unbounded naturals
  and integers. Overflow of `num_sets * associativity`,
  `block_size * associativity` or the counters is not modelled, nor are
  negative addresses from `%x` input of 2^31 or more.
- Floating-point `log2`: the model uses exact integer logarithms (`Log2`,
  `CeilLog2`) and exact truncation of the real difference
  (`TruncLog2Minus`). Rounding of the `double` value of `log2` is not
  modelled.
- CacheGeometry.Derive: requires `Admissible`. Block size at least 1 and at
  most the cache size, memory size at least 1, and for set associativity an
  associativity at least 1 with `block_size * associativity <= cache_size`.
  Outside these bounds the C code divides by zero, takes `log2(0)`, or (fully
  associative with a block larger than the cache) builds a cache with no ways,
  on which the first eviction computes `rand() % 0`.
- CacheModel.Cache.constructor: requires the same `Admissible` inputs, for
  the same reason.
- Binary.DecToBinary: `n` and `bits` are naturals. The C behaviour for a
  negative `n` (arithmetic shift) and for shifts of 32 or more (undefined) is
  not modelled.
- Per-set lookup, configuration errors and the corrected set-associative tag
  width: the source has none of them, so the model reproduces the source
  instead.
