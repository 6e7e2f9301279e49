/**
  What one access and a run of accesses do to the block array and the
  counters, proved about the specification functions of `CacheModel`.
 */
module CacheLaws {
  import opened Wrappers
  import opened CacheModel

  // ---------------------------------------------------------------------
  // One access

  /** An access hits exactly when one of the first `ways` slots holds the
      block; it fills exactly when none does and one of them is invalid; it
      evicts exactly when none does and all of them are valid. */
  lemma StepClassifies(slots: seq<Block>, ways: nat, tag: int, rnd: nat)
    requires 1 <= ways <= |slots|
    ensures var o := Step(slots, ways, tag, rnd).outcome;
      && (o.Hit? <==> exists i :: 0 <= i < ways && Holds(slots[i], tag))
      && (o.MissFilled? <==>
            (forall i :: 0 <= i < ways ==> !Holds(slots[i], tag)) &&
            (exists i :: 0 <= i < ways && !slots[i].valid))
      && (o.MissEvicted? <==>
            (forall i :: 0 <= i < ways ==> !Holds(slots[i], tag)) &&
            (forall i :: 0 <= i < ways ==> slots[i].valid))
  {
  }

  /** A hit reports the lowest slot holding the block and changes nothing. */
  lemma StepHit(slots: seq<Block>, ways: nat, tag: int, rnd: nat)
    requires 1 <= ways <= |slots|
    requires Step(slots, ways, tag, rnd).outcome.Hit?
    ensures var t := Step(slots, ways, tag, rnd); var i := t.outcome.way;
      && i < ways && Holds(slots[i], tag)
      && (forall j :: 0 <= j < i ==> !Holds(slots[j], tag))
      && t.slots == slots
  {
  }

  /** A fill takes the lowest invalid slot, makes it valid and dirty with the
      new tag, and changes no other slot. */
  lemma StepFill(slots: seq<Block>, ways: nat, tag: int, rnd: nat)
    requires 1 <= ways <= |slots|
    requires Step(slots, ways, tag, rnd).outcome.MissFilled?
    ensures var t := Step(slots, ways, tag, rnd); var i := t.outcome.way;
      && i < ways && !slots[i].valid
      && (forall j :: 0 <= j < i ==> slots[j].valid)
      && t.slots == slots[i := Block(true, tag, true)]
  {
  }

  /** An eviction overwrites slot `rnd % ways`, which was valid and stays so,
      reports its previous tag and dirty bit, and changes no other slot. */
  lemma StepEvict(slots: seq<Block>, ways: nat, tag: int, rnd: nat)
    requires 1 <= ways <= |slots|
    requires Step(slots, ways, tag, rnd).outcome.MissEvicted?
    ensures var t := Step(slots, ways, tag, rnd); var i := t.outcome.way;
      && i == rnd % ways
      && slots[i].valid
      && t.outcome.evictedTag == slots[i].tag
      && t.outcome.evictedDirty == slots[i].dirty
      && t.slots == slots[i := Block(true, tag, true)]
  {
  }

  /** Only the reported slot, always one of the first `ways`, can change. */
  lemma StepFrame(slots: seq<Block>, ways: nat, tag: int, rnd: nat)
    requires 1 <= ways <= |slots|
    ensures var t := Step(slots, ways, tag, rnd);
      && t.outcome.way < ways
      && forall i :: 0 <= i < |slots| && i != t.outcome.way ==> t.slots[i] == slots[i]
  {
  }

  /** The slots from `ways` on are never read: two block arrays that agree
      on the first `ways` slots see the same outcome and the same new first
      `ways` slots. */
  lemma StepReadsOnlyWays(slots: seq<Block>, other: seq<Block>, ways: nat, tag: int, rnd: nat)
    requires 1 <= ways <= |slots| && ways <= |other|
    requires slots[..ways] == other[..ways]
    ensures Step(slots, ways, tag, rnd).outcome == Step(other, ways, tag, rnd).outcome
    ensures Step(slots, ways, tag, rnd).slots[..ways] == Step(other, ways, tag, rnd).slots[..ways]
  {
    assert forall i :: 0 <= i < ways ==> slots[i] == other[i] by {
      forall i | 0 <= i < ways ensures slots[i] == other[i] {
        assert slots[..ways][i] == other[..ways][i];
      }
    }
  }

  /** No access invalidates a slot. */
  lemma StepKeepsValid(slots: seq<Block>, ways: nat, tag: int, rnd: nat)
    requires 1 <= ways <= |slots|
    ensures var t := Step(slots, ways, tag, rnd);
      forall i :: 0 <= i < |slots| && slots[i].valid ==> t.slots[i].valid
  {
  }

  /** After any access the block sits, valid, in the reported slot, and the
      same access again hits that slot without changing anything. */
  lemma StepThenHit(slots: seq<Block>, ways: nat, tag: int, rnd: nat, rnd': nat)
    requires 1 <= ways <= |slots|
    ensures var t := Step(slots, ways, tag, rnd);
      && Holds(t.slots[t.outcome.way], tag)
      && Step(t.slots, ways, tag, rnd') == Transition(Hit(t.outcome.way), t.slots)
  {
  }

  /** Every access counts exactly one hit or one miss, and an eviction only
      together with a miss. */
  lemma TallyCounts(stats: Stats, outcome: Outcome)
    ensures var s := Tally(stats, outcome);
      && s.hits + s.misses == stats.hits + stats.misses + 1
      && (s.hits == stats.hits + 1 <==> outcome.Hit?)
      && (s.misses == stats.misses + 1 <==> !outcome.Hit?)
      && (s.evictions == stats.evictions + 1 <==> outcome.MissEvicted?)
      && (s.evictions == stats.evictions || s.evictions == stats.evictions + 1)
  {
  }

  // ---------------------------------------------------------------------
  // The shape of a block array reached from the initial one

  /** Among the first `ways` slots the valid ones come first, and no two
      valid ones hold the same block. */
  predicate Orderly(slots: seq<Block>, ways: nat)
  {
    && ways <= |slots|
    && (forall i, j :: 0 <= i < j < ways && slots[j].valid ==> slots[i].valid)
    && (forall i, j :: 0 <= i < j < ways && slots[i].valid && slots[j].valid ==> slots[i].tag != slots[j].tag)
  }

  /** Every block goes from invalid to valid and dirty, and never back:
      no valid block is ever clean. */
  predicate DirtyWhenValid(slots: seq<Block>)
  {
    forall i :: 0 <= i < |slots| && slots[i].valid ==> slots[i].dirty
  }

  /** The block array `initializeCache` builds is orderly and has no valid
      clean block. */
  lemma EmptyIsOrderly(n: nat, ways: nat)
    requires ways <= n
    ensures Orderly(seq(n, _ => Empty), ways)
    ensures DirtyWhenValid(seq(n, _ => Empty))
  {
  }

  lemma StepKeepsOrderly(slots: seq<Block>, ways: nat, tag: int, rnd: nat)
    requires 1 <= ways <= |slots| && Orderly(slots, ways)
    ensures Orderly(Step(slots, ways, tag, rnd).slots, ways)
  {
  }

  /** A fill and an overwrite both set the dirty bit, so an access never
      makes a valid block clean. */
  lemma StepKeepsDirty(slots: seq<Block>, ways: nat, tag: int, rnd: nat)
    requires 1 <= ways <= |slots| && DirtyWhenValid(slots)
    ensures DirtyWhenValid(Step(slots, ways, tag, rnd).slots)
  {
  }

  // ---------------------------------------------------------------------
  // A run of accesses, as the source's driver loop makes them

  /** One address fed to `accessCache`, with the value `rand()` would return
      if the access evicts. */
  datatype Request = Request(address: nat, rnd: nat)

  datatype Trace = Trace(slots: seq<Block>, stats: Stats, outcomes: seq<Outcome>)

  function Run(slots: seq<Block>, ways: nat, blockSize: nat, stats: Stats, reqs: seq<Request>): (r: Trace)
    requires 1 <= ways <= |slots| && 1 <= blockSize
    ensures |r.slots| == |slots| && |r.outcomes| == |reqs|
    decreases |reqs|
  {
    if reqs == [] then Trace(slots, stats, [])
    else
      var t := Step(slots, ways, reqs[0].address / blockSize, reqs[0].rnd);
      var rest := Run(t.slots, ways, blockSize, Tally(stats, t.outcome), reqs[1..]);
      Trace(rest.slots, rest.stats, [t.outcome] + rest.outcomes)
  }

  /** Hits and misses grow by the number of accesses together, and the
      evictions never by more than the misses. */
  lemma {:induction false} RunCounts(slots: seq<Block>, ways: nat, blockSize: nat, stats: Stats, reqs: seq<Request>)
    requires 1 <= ways <= |slots| && 1 <= blockSize
    ensures var s := Run(slots, ways, blockSize, stats, reqs).stats;
      && s.hits + s.misses == stats.hits + stats.misses + |reqs|
      && s.hits >= stats.hits && s.misses >= stats.misses
      && s.evictions - stats.evictions <= s.misses - stats.misses
    decreases |reqs|
  {
    if reqs != [] {
      var t := Step(slots, ways, reqs[0].address / blockSize, reqs[0].rnd);
      RunCounts(t.slots, ways, blockSize, Tally(stats, t.outcome), reqs[1..]);
    }
  }

  /** From zero counters: hits plus misses is the number of accesses, and
      there are never more evictions than misses. */
  lemma RunFromZero(slots: seq<Block>, ways: nat, blockSize: nat, reqs: seq<Request>)
    requires 1 <= ways <= |slots| && 1 <= blockSize
    ensures var s := Run(slots, ways, blockSize, NoAccesses, reqs).stats;
      s.hits + s.misses == |reqs| && s.evictions <= s.misses
  {
    RunCounts(slots, ways, blockSize, NoAccesses, reqs);
  }

  /** A run keeps the block array orderly, never invalidates a slot, never
      leaves a valid block clean and leaves the slots from `ways` on as they
      were. */
  lemma {:induction false} RunKeepsShape(slots: seq<Block>, ways: nat, blockSize: nat, stats: Stats, reqs: seq<Request>)
    requires 1 <= ways <= |slots| && 1 <= blockSize && Orderly(slots, ways)
    ensures var r := Run(slots, ways, blockSize, stats, reqs).slots;
      && Orderly(r, ways)
      && (DirtyWhenValid(slots) ==> DirtyWhenValid(r))
      && (forall i :: 0 <= i < |slots| && slots[i].valid ==> r[i].valid)
      && (forall i :: ways <= i < |slots| ==> r[i] == slots[i])
    decreases |reqs|
  {
    if reqs != [] {
      var t := Step(slots, ways, reqs[0].address / blockSize, reqs[0].rnd);
      StepKeepsOrderly(slots, ways, reqs[0].address / blockSize, reqs[0].rnd);
      StepKeepsValid(slots, ways, reqs[0].address / blockSize, reqs[0].rnd);
      if DirtyWhenValid(slots) {
        StepKeepsDirty(slots, ways, reqs[0].address / blockSize, reqs[0].rnd);
      }
      StepFrame(slots, ways, reqs[0].address / blockSize, reqs[0].rnd);
      RunKeepsShape(t.slots, ways, blockSize, Tally(stats, t.outcome), reqs[1..]);
    }
  }

  /** Starting with the slots `[k, ways)` empty, requests for distinct blocks
      that no slot holds fill slots `k`, `k+1`, ... in turn. */
  lemma {:induction false} FillsInOrder(slots: seq<Block>, ways: nat, blockSize: nat, stats: Stats, reqs: seq<Request>, k: nat)
    requires 1 <= ways <= |slots| && 1 <= blockSize && k + |reqs| <= ways
    requires forall j :: 0 <= j < k ==> slots[j].valid
    requires forall j :: k <= j < ways ==> !slots[j].valid
    requires forall j, m :: 0 <= j < k && 0 <= m < |reqs| ==> slots[j].tag != reqs[m].address / blockSize
    requires forall m, m' :: 0 <= m < m' < |reqs| ==> reqs[m].address / blockSize != reqs[m'].address / blockSize
    ensures var r := Run(slots, ways, blockSize, stats, reqs);
      && (forall m :: 0 <= m < |reqs| ==> r.outcomes[m] == MissFilled(k + m))
      && (forall j :: 0 <= j < k ==> r.slots[j] == slots[j])
      && (forall m :: 0 <= m < |reqs| ==> r.slots[k + m] == Block(true, reqs[m].address / blockSize, true))
    decreases |reqs|
  {
    if reqs != [] {
      var tag := reqs[0].address / blockSize;
      var t := Step(slots, ways, tag, reqs[0].rnd);
      assert FindMatch(slots, ways, tag, 0).None?;
      assert !slots[k].valid;
      assert FindInvalid(slots, ways, 0) == Some(k);
      assert t.outcome == MissFilled(k);
      var rest := reqs[1..];
      assert forall j, m :: 0 <= j < k + 1 && 0 <= m < |rest| ==> t.slots[j].tag != rest[m].address / blockSize by {
        forall j, m | 0 <= j < k + 1 && 0 <= m < |rest|
          ensures t.slots[j].tag != rest[m].address / blockSize
        {
          assert rest[m] == reqs[m + 1];
        }
      }
      FillsInOrder(t.slots, ways, blockSize, Tally(stats, t.outcome), rest, k + 1);
      var r := Run(slots, ways, blockSize, stats, reqs);
      var r' := Run(t.slots, ways, blockSize, Tally(stats, t.outcome), rest);
      assert r.slots == r'.slots;
      forall m | 0 <= m < |reqs|
        ensures r.outcomes[m] == MissFilled(k + m)
        ensures r.slots[k + m] == Block(true, reqs[m].address / blockSize, true)
      {
        if m > 0 {
          assert rest[m - 1] == reqs[m];
          assert r.outcomes[m] == r'.outcomes[m - 1];
          assert r.slots[k + m] == r'.slots[k + 1 + (m - 1)];
        }
      }
    }
  }

  /** From an empty block array, `ways` requests for distinct blocks fill the
      slots 0 to `ways-1` in order, and a request for yet another block then
      evicts. */
  lemma FullSetEvicts(n: nat, ways: nat, blockSize: nat, stats: Stats, reqs: seq<Request>, next: Request)
    requires 1 <= ways <= n && 1 <= blockSize && |reqs| == ways
    requires forall m, m' :: 0 <= m < m' < |reqs| ==> reqs[m].address / blockSize != reqs[m'].address / blockSize
    requires forall m :: 0 <= m < |reqs| ==> reqs[m].address / blockSize != next.address / blockSize
    ensures var r := Run(seq(n, _ => Empty), ways, blockSize, stats, reqs + [next]);
      && (forall m :: 0 <= m < ways ==> r.outcomes[m] == MissFilled(m))
      && r.outcomes[ways].MissEvicted?
      && r.outcomes[ways].way == next.rnd % ways
  {
    var empty := seq(n, _ => Empty);
    FillsInOrder(empty, ways, blockSize, stats, reqs, 0);
    var filled := Run(empty, ways, blockSize, stats, reqs);
    RunSplit(empty, ways, blockSize, stats, reqs, [next]);
    var tag := next.address / blockSize;
    assert FindMatch(filled.slots, ways, tag, 0).None? by {
      forall i | 0 <= i < ways
        ensures !Holds(filled.slots[i], tag)
      {
        assert filled.slots[i] == Block(true, reqs[i].address / blockSize, true);
      }
    }
    assert FindInvalid(filled.slots, ways, 0).None? by {
      forall i | 0 <= i < ways
        ensures filled.slots[i].valid
      {
        assert filled.slots[i] == Block(true, reqs[i].address / blockSize, true);
      }
    }
    var t := Step(filled.slots, ways, tag, next.rnd);
    assert t.outcome.MissEvicted? && t.outcome.way == next.rnd % ways;
    assert Run(filled.slots, ways, blockSize, filled.stats, [next]).outcomes == [t.outcome];
  }

  /** Running two lists of requests one after the other is running their
      concatenation. */
  lemma {:induction false} RunSplit(slots: seq<Block>, ways: nat, blockSize: nat, stats: Stats, first: seq<Request>, second: seq<Request>)
    requires 1 <= ways <= |slots| && 1 <= blockSize
    ensures var a := Run(slots, ways, blockSize, stats, first);
      var b := Run(a.slots, ways, blockSize, a.stats, second);
      Run(slots, ways, blockSize, stats, first + second) == Trace(b.slots, b.stats, a.outcomes + b.outcomes)
    decreases |first|
  {
    if first == [] {
      assert first + second == second;
    } else {
      var t := Step(slots, ways, first[0].address / blockSize, first[0].rnd);
      assert (first + second)[0] == first[0];
      assert (first + second)[1..] == first[1..] + second;
      RunSplit(t.slots, ways, blockSize, Tally(stats, t.outcome), first[1..], second);
    }
  }
}
