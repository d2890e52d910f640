/** One simulation run: the cache, its counters and the anomaly detector,
    advanced one access at a time (index.tsx, `getInitialCache`,
    `resetSimulation` and `runSimulationStep`). */
module Simulation {
  import opened Wrappers
  import opened Cache
  import opened Counters
  import Stats
  import opened Anomaly

  /** The cache and its two counters. */
  datatype Snapshot = Snapshot(lines: seq<Line>, hits: nat, misses: nat)

  /** What one step reports: the line touched, hit or miss, the counters
      after it, the miss rate fed to the detector and the detector's alert. */
  datatype StepResult = StepResult(
    index: nat, wasHit: bool, hits: nat, misses: nat, missRate: real, anomaly: Option<string>)

  /** One access applied to the cache and to exactly one of the counters. */
  function Advance(s: Snapshot, address: nat): (r: Snapshot)
    requires 0 < |s.lines|
    ensures r.lines == Access(s.lines, address).0
    ensures |r.lines| == |s.lines|
    ensures r.hits + r.misses == s.hits + s.misses + 1
    ensures IsHit(s.lines, address) ==> r.hits == s.hits + 1 && r.misses == s.misses
    ensures !IsHit(s.lines, address) ==> r.hits == s.hits && r.misses == s.misses + 1
  {
    var (lines, wasHit) := Access(s.lines, address);
    if wasHit then Snapshot(lines, s.hits + 1, s.misses)
    else Snapshot(lines, s.hits, s.misses + 1)
  }

  /** The state after the accesses `addresses`, from a reset cache. */
  function Replay(cacheSize: nat, addresses: seq<nat>): (s: Snapshot)
    requires 0 < cacheSize
    ensures |s.lines| == cacheSize
    ensures s.hits + s.misses == |addresses|
  {
    if addresses == [] then Snapshot(InitialCache(cacheSize), 0, 0)
    else Advance(Replay(cacheSize, addresses[..|addresses| - 1]), addresses[|addresses| - 1])
  }

  /** Every state reached from a reset keeps invalid lines untagged. */
  lemma {:induction false} ReplayKeepsTagsCleared(cacheSize: nat, addresses: seq<nat>)
    requires 0 < cacheSize
    ensures TagsCleared(Replay(cacheSize, addresses).lines)
  {
    if addresses != [] {
      var prefix := addresses[..|addresses| - 1];
      ReplayKeepsTagsCleared(cacheSize, prefix);
      AccessKeepsTagsCleared(Replay(cacheSize, prefix).lines, addresses[|addresses| - 1]);
    }
  }

  /** The miss rate each access in `addresses` reports: the counters before
      it plus its own outcome. */
  function MissRates(cacheSize: nat, addresses: seq<nat>): (rates: seq<real>)
    requires 0 < cacheSize
    ensures |rates| == |addresses|
    ensures forall i | 0 <= i < |rates| :: 0.0 <= rates[i] <= 1.0
  {
    if addresses == [] then []
    else
      var prefix := addresses[..|addresses| - 1];
      var s := Replay(cacheSize, prefix);
      MissRates(cacheSize, prefix) + [MissRate(s.hits, s.misses, IsHit(s.lines, addresses[|addresses| - 1]))]
  }

  /** Replaying one more access advances the state by that access and
      appends its miss rate. */
  lemma {:induction false} ReplayAppend(cacheSize: nat, addresses: seq<nat>, address: nat)
    requires 0 < cacheSize
    ensures var s := Replay(cacheSize, addresses);
            Replay(cacheSize, addresses + [address]) == Advance(s, address) &&
            MissRates(cacheSize, addresses + [address]) ==
              MissRates(cacheSize, addresses) + [MissRate(s.hits, s.misses, IsHit(s.lines, address))]
  {
    assert (addresses + [address])[..|addresses|] == addresses;
  }

  /** The rate reported by the latest access is the share of misses among
      all accesses so far, counted after it. */
  lemma {:induction false} LatestRateIsMissShare(cacheSize: nat, addresses: seq<nat>, address: nat)
    requires 0 < cacheSize
    ensures var s := Replay(cacheSize, addresses + [address]);
            MissRates(cacheSize, addresses + [address])[|addresses|] == MissShare(s.hits, s.misses)
  {
    ReplayAppend(cacheSize, addresses, address);
    var s0 := Replay(cacheSize, addresses);
    var hit := IsHit(s0.lines, address);
    var rate := MissRate(s0.hits, s0.misses, hit);
    var s := Replay(cacheSize, addresses + [address]);
    assert MissRates(cacheSize, addresses + [address])[|addresses|] == rate;
    assert s0.hits + s0.misses + 1 == |addresses| + 1;
    assert s.misses == s0.misses + if hit then 0 else 1;
    MissRateIsShareAfterStep(s0.hits, s0.misses, hit);
  }

  /** The mean of the detector's window, whatever its length, stays a rate
      in `[0, 1]`. */
  lemma WindowMeanIsRate(cacheSize: nat, addresses: seq<nat>, n: nat)
    requires 0 < cacheSize && 0 < n && addresses != []
    ensures 0.0 <= Stats.Mean(LastN(MissRates(cacheSize, addresses), n)) <= 1.0
  {
    var rates := MissRates(cacheSize, addresses);
    var w := LastN(rates, n);
    forall i | 0 <= i < |w|
      ensures 0.0 <= w[i] <= 1.0
    {
      assert w[i] == rates[|rates| - |w| + i];
    }
    Stats.MeanBounds(w, 0.0, 1.0);
  }

  class Simulator {
    /** `CACHE_SIZE` and `MEMORY_SIZE`. */
    const cacheSize: nat
    const memorySize: nat
    /** `anomalyDetectorRef.current`. */
    const detector: AnomalyDetector
    var lines: seq<Line>
    var hits: nat
    var misses: nat
    /** The addresses accessed since construction or the last reset. */
    ghost var accesses: seq<nat>

    ghost predicate Valid()
      reads this, detector
    {
      0 < cacheSize && 0 < memorySize && detector.Valid() &&
      Snapshot(lines, hits, misses) == Replay(cacheSize, accesses) &&
      detector.admitted == MissRates(cacheSize, accesses)
    }

    constructor (cacheSize: nat, memorySize: nat, windowSize: nat, threshold: real)
      requires 0 < cacheSize && 0 < memorySize && 0 < windowSize && 0.0 <= threshold
      ensures Valid() && fresh(detector)
      ensures this.cacheSize == cacheSize && this.memorySize == memorySize
      ensures detector.windowSize == windowSize && detector.threshold == threshold
      ensures accesses == [] && lines == InitialCache(cacheSize) && hits == 0 && misses == 0
      ensures detector.window == []
    {
      this.cacheSize := cacheSize;
      this.memorySize := memorySize;
      detector := new AnomalyDetector(windowSize, threshold);
      lines := InitialCache(cacheSize);
      hits, misses := 0, 0;
      accesses := [];
    }

    /** `resetSimulation`: a fresh cache, zero counters and an empty window. */
    method Reset()
      requires Valid()
      modifies this, detector
      ensures Valid() && accesses == []
      ensures lines == InitialCache(cacheSize) && hits == 0 && misses == 0
      ensures TagsCleared(lines) && detector.window == []
    {
      lines := InitialCache(cacheSize);
      hits, misses := 0, 0;
      accesses := [];
      detector.Reset();
    }

    /** `runSimulationStep` for the drawn `address`: resolve it against the
        cache, count it, and feed the miss rate to the detector. */
    method Step(address: nat) returns (r: StepResult)
      requires Valid() && address < memorySize
      modifies this, detector
      ensures Valid() && accesses == old(accesses) + [address]
      ensures TagsCleared(lines)
      ensures r.index == IndexOf(address, cacheSize)
      ensures r.wasHit == IsHit(old(lines), address)
      ensures (lines, r.wasHit) == Access(old(lines), address)
      ensures r.hits == hits && r.misses == misses
      ensures hits + misses == |accesses|
      ensures r.wasHit ==> hits == old(hits) + 1 && misses == old(misses)
      ensures !r.wasHit ==> hits == old(hits) && misses == old(misses) + 1
      ensures r.missRate == MissRate(old(hits), old(misses), r.wasHit)
      ensures 0.0 <= r.missRate <= 1.0 && r.missRate == MissShare(hits, misses)
      ensures detector.window == Slide(old(detector.window), r.missRate, detector.windowSize)
      ensures r.anomaly.Some? <==>
                |detector.window| == detector.windowSize &&
                Outlier(detector.window, r.missRate, detector.threshold)
      ensures r.anomaly.Some? ==> r.anomaly.value == SpikeMessage
      ensures |accesses| < detector.windowSize ==> r.anomaly == None
    {
      ghost var before := Snapshot(lines, hits, misses);
      var index := IndexOf(address, cacheSize);
      var tag := TagOf(address, cacheSize);
      var line := lines[index];
      var wasHit := line.valid && line.tag == Some(tag);
      assert wasHit == IsHit(before.lines, address);
      if !wasHit {
        lines := lines[index := Line(Some(tag), true)];
      }
      var currentMissRate := MissRate(hits, misses, wasHit);
      if wasHit {
        hits := hits + 1;
      } else {
        misses := misses + 1;
      }
      assert (lines, wasHit) == Access(before.lines, address);
      assert Snapshot(lines, hits, misses) == Advance(before, address);
      ReplayAppend(cacheSize, accesses, address);
      LatestRateIsMissShare(cacheSize, accesses, address);
      accesses := accesses + [address];
      ReplayKeepsTagsCleared(cacheSize, accesses);
      assert Snapshot(lines, hits, misses) == Replay(cacheSize, accesses);
      var anomaly := detector.Check(Rate(currentMissRate));
      assert detector.admitted == MissRates(cacheSize, accesses);
      r := StepResult(index, wasHit, hits, misses, currentMissRate, anomaly);
    }
  }
}
