/** The direct-mapped cache: how an address lands on a line, when an access
    hits, and how a miss replaces the line (index.tsx, `runSimulationStep`). */
module Cache {
  import opened Wrappers

  /** One cache slot; `tag` is absent (`null`) until the line is first filled. */
  datatype Line = Line(tag: Option<nat>, valid: bool)

  /** The line an address maps to: `address % CACHE_SIZE`. */
  function IndexOf(address: nat, cacheSize: nat): (i: nat)
    requires 0 < cacheSize
    ensures i < cacheSize
  {
    address % cacheSize
  }

  /** The tag stored for an address: `Math.floor(address / CACHE_SIZE)`. */
  function TagOf(address: nat, cacheSize: nat): (t: nat)
    requires 0 < cacheSize
    ensures t * cacheSize <= address < (t + 1) * cacheSize
  {
    address / cacheSize
  }

  /** Index and tag together determine the address, and an address of a
      memory whose size is a multiple of the cache size has a tag below
      MEMORY_SIZE / CACHE_SIZE. */
  lemma Decompose(address: nat, cacheSize: nat, memorySize: nat)
    requires 0 < cacheSize && address < memorySize
    ensures address == TagOf(address, cacheSize) * cacheSize + IndexOf(address, cacheSize)
    ensures memorySize % cacheSize == 0 ==> TagOf(address, cacheSize) < memorySize / cacheSize
  {
    var t, q := TagOf(address, cacheSize), memorySize / cacheSize;
    if memorySize % cacheSize == 0 {
      assert t * cacheSize < q * cacheSize;
    }
  }

  /** A freshly reset cache: `cacheSize` lines, each `{tag: null, valid: false}`. */
  function InitialCache(cacheSize: nat): (lines: seq<Line>)
    ensures |lines| == cacheSize
    ensures forall i | 0 <= i < cacheSize :: lines[i] == Line(None, false)
  {
    seq(cacheSize, _ => Line(None, false))
  }

  /** The invariant of the cache contents: no invalid line carries a tag. */
  ghost predicate TagsCleared(lines: seq<Line>)
  {
    forall i | 0 <= i < |lines| :: !lines[i].valid ==> lines[i].tag == None
  }

  /** An access hits when the line it maps to is valid and holds its tag. */
  predicate IsHit(lines: seq<Line>, address: nat): (hit: bool)
    requires 0 < |lines|
    ensures hit <==> lines[IndexOf(address, |lines|)] == Line(Some(TagOf(address, |lines|)), true)
  {
    var line := lines[IndexOf(address, |lines|)];
    line.valid && line.tag == Some(TagOf(address, |lines|))
  }

  /** One access: the cache afterwards and whether it was a hit. A hit leaves
      the cache alone; a miss overwrites the one line the address maps to. */
  function Access(lines: seq<Line>, address: nat): (r: (seq<Line>, bool))
    requires 0 < |lines|
    ensures r.1 == IsHit(lines, address)
    ensures |r.0| == |lines|
    ensures r.1 ==> r.0 == lines
    ensures !r.1 ==> r.0[IndexOf(address, |lines|)] == Line(Some(TagOf(address, |lines|)), true)
    ensures forall j | 0 <= j < |lines| && j != IndexOf(address, |lines|) :: r.0[j] == lines[j]
  {
    if IsHit(lines, address) then
      (lines, true)
    else
      (lines[IndexOf(address, |lines|) := Line(Some(TagOf(address, |lines|)), true)], false)
  }

  /** Every access keeps invalid lines untagged. */
  lemma AccessKeepsTagsCleared(lines: seq<Line>, address: nat)
    requires 0 < |lines| && TagsCleared(lines)
    ensures TagsCleared(Access(lines, address).0)
  {
  }

  /** Right after an access, the same address hits and changes nothing. */
  lemma RepeatedAccessHits(lines: seq<Line>, address: nat)
    requires 0 < |lines|
    ensures Access(Access(lines, address).0, address) == (Access(lines, address).0, true)
  {
  }

  /** An access to another address on the same line with another tag evicts
      the first: the next access to it misses. */
  lemma ConflictEvicts(lines: seq<Line>, a: nat, b: nat)
    requires 0 < |lines|
    requires IndexOf(a, |lines|) == IndexOf(b, |lines|) && a != b
    ensures !IsHit(Access(Access(lines, a).0, b).0, a)
  {
    var c := |lines|;
    Decompose(a, c, a + 1);
    Decompose(b, c, b + 1);
  }

  /** An access to another line leaves whether `a` hits as it was. */
  lemma OtherLineUnaffected(lines: seq<Line>, a: nat, b: nat)
    requires 0 < |lines| && IndexOf(a, |lines|) != IndexOf(b, |lines|)
    ensures IsHit(Access(lines, b).0, a) == IsHit(lines, a)
  {
  }

  /** Four lines, sixteen addresses: 5 and 9 share line 1 with tags 1 and 2;
      the accesses 5, 5, 9, 5 miss, hit, miss, miss. */
  lemma ConflictScenario()
    ensures IndexOf(5, 4) == 1 && TagOf(5, 4) == 1
    ensures IndexOf(9, 4) == 1 && TagOf(9, 4) == 2
    ensures var c0 := InitialCache(4);
            var (c1, h1) := Access(c0, 5);
            var (c2, h2) := Access(c1, 5);
            var (c3, h3) := Access(c2, 9);
            var (c4, h4) := Access(c3, 5);
            !h1 && c1[1] == Line(Some(1), true) && h2 &&
            !h3 && c3[1] == Line(Some(2), true) && !h4
  {
    var c0 := InitialCache(4);
    assert !IsHit(c0, 5);
    var c1 := Access(c0, 5).0;
    RepeatedAccessHits(c0, 5);
    ConflictEvicts(c1, 5, 9);
  }
}
