/** Extent maps of scripts/validate_reserved_storage_evidence.py: a check of sorted
    neighbours that stands for pairwise disjointness, and tiling that stands for a total
    injective map from logical to physical bytes. */
module Extents {
  import opened Text

  // --------------------------------------------------------------------------
  // Disjointness by sorting

  datatype Range = Range(start: nat, end: nat)

  predicate NonEmpty(r: Range) {
    r.start < r.end
  }

  /** Python's order on pairs. */
  predicate AtMost(a: Range, b: Range) {
    a.start < b.start || (a.start == b.start && a.end <= b.end)
  }

  function Insert(x: Range, s: seq<Range>): seq<Range> {
    if s == [] || AtMost(x, s[0]) then [x] + s else [s[0]] + Insert(x, s[1..])
  }

  /** `sorted(physical)`. */
  function Sorted(s: seq<Range>): seq<Range> {
    if s == [] then [] else Insert(s[0], Sorted(s[1..]))
  }

  predicate NeighboursApart(s: seq<Range>) {
    forall i :: 0 <= i < |s| - 1 ==> s[i].end <= s[i + 1].start
  }

  /** `disjoint`: does the list pass the check? */
  predicate Disjoint(physical: seq<Range>) {
    NeighboursApart(Sorted(physical))
  }

  /** The two ranges share no byte. */
  predicate Apart(a: Range, b: Range) {
    a.end <= b.start || b.end <= a.start
  }

  predicate PairwiseApart(s: seq<Range>) {
    forall i, j :: 0 <= i < j < |s| ==> Apart(s[i], s[j])
  }

  predicate AllNonEmpty(s: seq<Range>) {
    forall i :: 0 <= i < |s| ==> NonEmpty(s[i])
  }

  predicate Ascending(s: seq<Range>) {
    forall i, j :: 0 <= i < j < |s| ==> AtMost(s[i], s[j])
  }

  lemma PairwiseApartCons(x: Range, s: seq<Range>)
    ensures PairwiseApart([x] + s) <==> PairwiseApart(s) && forall y :: y in s ==> Apart(x, y)
  {
    var t := [x] + s;
    if PairwiseApart(t) {
      forall i, j | 0 <= i < j < |s| ensures Apart(s[i], s[j]) {
        assert t[i + 1] == s[i] && t[j + 1] == s[j];
      }
      forall y | y in s ensures Apart(x, y) {
        var i :| 0 <= i < |s| && s[i] == y;
        assert t[0] == x && t[i + 1] == y;
      }
    }
  }

  lemma {:induction false} InsertMembers(x: Range, s: seq<Range>)
    ensures forall y :: y in Insert(x, s) <==> y == x || y in s
  {
    if s != [] && !AtMost(x, s[0]) {
      InsertMembers(x, s[1..]);
      assert s == [s[0]] + s[1..];
    }
  }

  lemma AscendingCons(x: Range, s: seq<Range>)
    ensures Ascending([x] + s) <==> Ascending(s) && forall y :: y in s ==> AtMost(x, y)
  {
    var t := [x] + s;
    if Ascending(t) {
      forall i, j | 0 <= i < j < |s| ensures AtMost(s[i], s[j]) {
        assert t[i + 1] == s[i] && t[j + 1] == s[j];
      }
      forall y | y in s ensures AtMost(x, y) {
        var i :| 0 <= i < |s| && s[i] == y;
        assert t[0] == x && t[i + 1] == y;
      }
    }
  }

  lemma {:induction false} InsertAscending(x: Range, s: seq<Range>)
    requires Ascending(s)
    ensures Ascending(Insert(x, s))
  {
    if s == [] {
    } else {
      assert s == [s[0]] + s[1..];
      AscendingCons(s[0], s[1..]);
      if AtMost(x, s[0]) {
        AscendingCons(x, s);
      } else {
        InsertAscending(x, s[1..]);
        InsertMembers(x, s[1..]);
        AscendingCons(s[0], Insert(x, s[1..]));
      }
    }
  }

  lemma {:induction false} InsertApart(x: Range, s: seq<Range>)
    ensures PairwiseApart(Insert(x, s)) <==> PairwiseApart([x] + s)
  {
    if s != [] && !AtMost(x, s[0]) {
      InsertApart(x, s[1..]);
      InsertMembers(x, s[1..]);
      assert s == [s[0]] + s[1..];
      var tail := Insert(x, s[1..]);
      assert forall y :: y in s <==> y == s[0] || y in s[1..];
      assert x in tail && s[0] in s;
      assert Apart(s[0], x) <==> Apart(x, s[0]);
      PairwiseApartCons(s[0], tail);
      PairwiseApartCons(x, s[1..]);
      PairwiseApartCons(s[0], s[1..]);
      PairwiseApartCons(x, s);
    }
  }

  lemma {:induction false} SortedKeeps(s: seq<Range>)
    ensures Ascending(Sorted(s))
    ensures forall y :: y in Sorted(s) <==> y in s
    ensures PairwiseApart(Sorted(s)) <==> PairwiseApart(s)
  {
    if s != [] {
      SortedKeeps(s[1..]);
      InsertMembers(s[0], Sorted(s[1..]));
      InsertAscending(s[0], Sorted(s[1..]));
      InsertApart(s[0], Sorted(s[1..]));
      assert s == [s[0]] + s[1..];
      PairwiseApartCons(s[0], Sorted(s[1..]));
      PairwiseApartCons(s[0], s[1..]);
    }
  }

  lemma {:induction false} NeighboursReach(s: seq<Range>, i: nat, j: nat)
    requires NeighboursApart(s) && AllNonEmpty(s) && i < j < |s|
    ensures s[i].end <= s[j].start
    decreases j
  {
    if i + 1 < j {
      NeighboursReach(s, i, j - 1);
    }
  }

  /** The check of neighbours accepts a list of non-empty ranges exactly when they are
      pairwise disjoint. */
  lemma DisjointExact(s: seq<Range>)
    requires AllNonEmpty(s)
    ensures Disjoint(s) <==> PairwiseApart(s)
  {
    var t := Sorted(s);
    SortedKeeps(s);
    forall i | 0 <= i < |t| ensures NonEmpty(t[i]) {
      assert t[i] in s;
    }
    if NeighboursApart(t) {
      forall i, j | 0 <= i < j < |t| ensures Apart(t[i], t[j]) {
        NeighboursReach(t, i, j);
      }
    }
    if PairwiseApart(t) {
      forall i | 0 <= i < |t| - 1 ensures t[i].end <= t[i + 1].start {
        assert Apart(t[i], t[i + 1]) && AtMost(t[i], t[i + 1]) && NonEmpty(t[i]) && NonEmpty(t[i + 1]);
      }
    }
  }

  // --------------------------------------------------------------------------
  // Bytes

  predicate Within(b: int, r: Range) {
    r.start <= b < r.end
  }

  ghost function Bytes(r: Range): set<nat> {
    set b: nat | r.start <= b < r.end && Within(b, r)
  }

  ghost function AllBytes(s: seq<Range>): set<nat> {
    if s == [] then {} else Bytes(s[0]) + AllBytes(s[1..])
  }

  function Total(s: seq<Range>): int {
    if s == [] then 0 else (s[0].end - s[0].start) + Total(s[1..])
  }

  lemma {:induction false} BytesCount(r: Range)
    requires r.start <= r.end
    ensures |Bytes(r)| == r.end - r.start
    decreases r.end
  {
    if r.start < r.end {
      var shorter := Range(r.start, r.end - 1);
      BytesCount(shorter);
      assert Bytes(r) == Bytes(shorter) + {r.end - 1};
    } else {
      assert Bytes(r) == {};
    }
  }

  lemma {:induction false} InAllBytes(s: seq<Range>, b: nat)
    ensures b in AllBytes(s) <==> exists i :: 0 <= i < |s| && b in Bytes(s[i])
  {
    if s != [] {
      InAllBytes(s[1..], b);
      if b in AllBytes(s[1..]) {
        var i :| 0 <= i < |s[1..]| && b in Bytes(s[1..][i]);
        assert b in Bytes(s[i + 1]);
      }
      if exists i :: 0 <= i < |s| && b in Bytes(s[i]) {
        var i :| 0 <= i < |s| && b in Bytes(s[i]);
        assert i > 0 ==> b in Bytes(s[1..][i - 1]);
      }
    }
  }

  lemma DisjointUnionCount(a: set<nat>, b: set<nat>)
    ensures |a + b| <= |a| + |b|
    ensures |a + b| == |a| + |b| <==> a !! b
  {
    assert |a + b| == |a| + |b| - |a * b|;
    if a * b == {} {
      forall x | x in a ensures x !in b {
        assert x !in a * b;
      }
    }
    if a !! b {
      assert a * b == {};
    }
  }

  lemma ApartBytes(x: Range, s: seq<Range>)
    requires NonEmpty(x) && AllNonEmpty(s)
    ensures Bytes(x) !! AllBytes(s) <==> forall y :: y in s ==> Apart(x, y)
  {
    if Bytes(x) !! AllBytes(s) {
      forall y | y in s ensures Apart(x, y) {
        var i :| 0 <= i < |s| && s[i] == y;
        assert NonEmpty(s[i]);
        var b := if x.start >= y.start then x.start else y.start;
        InAllBytes(s, b);
        assert b in Bytes(x) ==> b !in Bytes(s[i]);
      }
    }
    if forall y :: y in s ==> Apart(x, y) {
      forall b | b in Bytes(x) ensures b !in AllBytes(s) {
        forall i | 0 <= i < |s| ensures b !in Bytes(s[i]) {
          assert Apart(x, s[i]);
        }
        InAllBytes(s, b);
      }
    }
  }

  /** Ranges occupy as many bytes as they are long together exactly when they are
      pairwise disjoint; otherwise they occupy fewer. */
  lemma {:induction false} OccupiedBytes(s: seq<Range>)
    requires AllNonEmpty(s)
    ensures |AllBytes(s)| <= Total(s)
    ensures |AllBytes(s)| == Total(s) <==> PairwiseApart(s)
  {
    if s != [] {
      OccupiedBytes(s[1..]);
      assert NonEmpty(s[0]);
      BytesCount(s[0]);
      DisjointUnionCount(Bytes(s[0]), AllBytes(s[1..]));
      ApartBytes(s[0], s[1..]);
      PairwiseApartCons(s[0], s[1..]);
      assert s == [s[0]] + s[1..];
    }
  }

  lemma {:induction false} TotalSum(a: seq<Range>, b: seq<Range>)
    ensures Total(a + b) == Total(a) + Total(b)
  {
    if a == [] {
      assert a + b == b;
    } else {
      TailOfSum(a, b);
      TotalSum(a[1..], b);
    }
  }

  // --------------------------------------------------------------------------
  // One volume

  const MAX_EXTENTS := 8192
  const MAX_NUMBER := 0x7fff_ffff_ffff_ffff

  datatype Identity = Identity(device: string, inode: int)

  datatype Extent = Extent(logical: int, physical: int, length: int, state: string)

  datatype Observation = Observation(identity: Identity, sizeBytes: int, allocatedBytes: int, extents: seq<Extent>)

  predicate Number(value: int, minimum: int) {
    minimum <= value <= MAX_NUMBER
  }

  predicate ExtentOk(e: Extent) {
    Number(e.logical, 0) && Number(e.physical, 1) && Number(e.length, 1)
      && (e.state == "written" || e.state == "unwritten")
  }

  predicate ExtentsOk(extents: seq<Extent>) {
    forall i :: 0 <= i < |extents| ==> ExtentOk(extents[i])
  }

  function PhysicalRange(e: Extent): Range
    requires ExtentOk(e)
  {
    Range(e.physical, e.physical + e.length)
  }

  function Physical(extents: seq<Extent>): (s: seq<Range>)
    requires ExtentsOk(extents)
    ensures |s| == |extents| && forall i :: 0 <= i < |s| ==> s[i] == PhysicalRange(extents[i])
  {
    seq(|extents|, i requires 0 <= i < |extents| => PhysicalRange(extents[i]))
  }

  function Lengths(extents: seq<Extent>): int {
    if extents == [] then 0 else Lengths(extents[..|extents| - 1]) + extents[|extents| - 1].length
  }

  /** Each extent starts where the ones before it end. */
  predicate Tiles(extents: seq<Extent>) {
    forall i :: 0 <= i < |extents| ==> extents[i].logical == Lengths(extents[..i])
  }

  predicate Allocates(o: Observation, expected: Identity, size: int) {
    && o.identity == expected
    && Number(o.sizeBytes, 1) && o.sizeBytes == size
    && Number(o.allocatedBytes, 0) && o.allocatedBytes >= size
    && 1 <= |o.extents| <= MAX_EXTENTS
    && ExtentsOk(o.extents)
    && Tiles(o.extents) && Lengths(o.extents) == size
    && PairwiseApart(Physical(o.extents))
  }

  // The same, extent by extent

  const LARGEST := 9223372036854775807

  /** A written or unwritten stretch of at least one byte, not at the start of the device. */
  predicate Stretch(e: Extent) {
    && 0 <= e.logical <= LARGEST && 1 <= e.physical <= LARGEST && 1 <= e.length <= LARGEST
    && (e.state == "written" || e.state == "unwritten")
  }

  /** The file in order without a gap: each stretch starts where the one before it ends. */
  predicate Covers(extents: seq<Extent>, size: int) {
    && extents != [] && extents[0].logical == 0
    && (forall i :: 0 < i < |extents| ==> extents[i].logical == extents[i - 1].logical + extents[i - 1].length)
    && extents[|extents| - 1].logical + extents[|extents| - 1].length == size
  }

  /** No two stretches hold the same physical byte. */
  predicate Unaliased(extents: seq<Extent>) {
    forall i, j :: 0 <= i < j < |extents| ==>
      || extents[i].physical + extents[i].length <= extents[j].physical
      || extents[j].physical + extents[j].length <= extents[i].physical
  }

  predicate Backs(o: Observation, expected: Identity, size: int) {
    && o.identity == expected && o.sizeBytes == size && 1 <= size <= o.allocatedBytes <= LARGEST
    && |o.extents| <= 8192 && (forall i :: 0 <= i < |o.extents| ==> Stretch(o.extents[i]))
    && Covers(o.extents, size) && Unaliased(o.extents)
  }

  lemma {:induction false} TilesChain(extents: seq<Extent>, n: nat)
    requires n <= |extents| && extents != [] && extents[0].logical == 0
    requires forall i :: 0 < i < |extents| ==> extents[i].logical == extents[i - 1].logical + extents[i - 1].length
    ensures n < |extents| ==> extents[n].logical == Lengths(extents[..n])
    ensures n > 0 ==> extents[n - 1].logical + extents[n - 1].length == Lengths(extents[..n])
  {
    if n > 0 {
      TilesChain(extents, n - 1);
      assert extents[..n][..n - 1] == extents[..n - 1];
    } else {
      assert extents[..0] == [];
    }
  }

  lemma ChainTiles(extents: seq<Extent>, i: nat)
    requires Tiles(extents) && i < |extents|
    ensures i > 0 ==> extents[i].logical == extents[i - 1].logical + extents[i - 1].length
    ensures i == 0 ==> extents[i].logical == 0
    ensures Lengths(extents[..i + 1]) == extents[i].logical + extents[i].length
  {
    assert extents[..i + 1][..i] == extents[..i];
    assert extents[..0] == [];
    if i > 0 { assert extents[..i][..i - 1] == extents[..i - 1]; }
  }

  lemma CoversExact(extents: seq<Extent>, size: int)
    requires extents != []
    ensures Tiles(extents) && Lengths(extents) == size <==> Covers(extents, size)
  {
    var n := |extents|;
    assert extents[..n] == extents;
    if Tiles(extents) {
      ChainTiles(extents, 0);
      ChainTiles(extents, n - 1);
      forall i | 0 < i < n ensures extents[i].logical == extents[i - 1].logical + extents[i - 1].length {
        ChainTiles(extents, i);
      }
    }
    if Covers(extents, size) {
      forall i | 0 <= i < n ensures extents[i].logical == Lengths(extents[..i]) {
        TilesChain(extents, i);
      }
      TilesChain(extents, n);
    }
  }

  /** An observation backs a volume exactly when its stretches, one after another, are the
      whole of it and share no physical byte. */
  lemma AllocatesExact(o: Observation, expected: Identity, size: int)
    ensures Allocates(o, expected, size) <==> Backs(o, expected, size)
  {
    if o.extents != [] { CoversExact(o.extents, size); }
    forall i | 0 <= i < |o.extents| ensures ExtentOk(o.extents[i]) <==> Stretch(o.extents[i]) {
    }
    if ExtentsOk(o.extents) { UnaliasedExact(o.extents); }
  }

  lemma UnaliasedExact(extents: seq<Extent>)
    requires ExtentsOk(extents)
    ensures PairwiseApart(Physical(extents)) <==> Unaliased(extents)
  {
    var ranges := Physical(extents);
    if PairwiseApart(ranges) {
      forall i, j | 0 <= i < j < |extents|
        ensures extents[i].physical + extents[i].length <= extents[j].physical
             || extents[j].physical + extents[j].length <= extents[i].physical
      {
        assert Apart(ranges[i], ranges[j]);
      }
    }
  }

  /** `allocation`: the physical ranges, or a refusal. */
  method Allocation(o: Observation, expected: Identity, size: int) returns (r: Option<seq<Range>>)
    ensures r.Some? <==> Allocates(o, expected, size)
    ensures r.Some? ==> r.value == Physical(o.extents)
  {
    if o.identity != expected { return None; }
    if !Number(o.sizeBytes, 1) || o.sizeBytes != size { return None; }
    if !Number(o.allocatedBytes, 0) || o.allocatedBytes < size { return None; }
    if |o.extents| < 1 || |o.extents| > MAX_EXTENTS { return None; }
    var tiled := Tile(o.extents);
    if tiled == None { return None; }
    var (physical, cursor) := tiled.value;
    PhysicalNonEmpty(o.extents);
    DisjointExact(physical);
    if cursor != size || !Disjoint(physical) { return None; }
    r := Some(physical);
  }

  /** The loop of `allocation`: the ranges and the final cursor. */
  method Tile(extents: seq<Extent>) returns (r: Option<(seq<Range>, int)>)
    ensures r.Some? <==> ExtentsOk(extents) && Tiles(extents)
    ensures r.Some? ==> r.value == (Physical(extents), Lengths(extents))
  {
    var cursor := 0;
    var physical: seq<Range> := [];
    for i := 0 to |extents|
      invariant ExtentsOk(extents[..i]) && Tiles(extents[..i])
      invariant cursor == Lengths(extents[..i]) && physical == Physical(extents[..i])
    {
      var extent := extents[i];
      TileStep(extents, i);
      if !ExtentOk(extent) || extent.logical != cursor { return None; }
      physical := physical + [Range(extent.physical, extent.physical + extent.length)];
      cursor := cursor + extent.length;
    }
    assert extents[..|extents|] == extents;
    r := Some((physical, cursor));
  }

  /** One more extent. */
  lemma TileStep(extents: seq<Extent>, i: nat)
    requires i < |extents| && ExtentsOk(extents[..i]) && Tiles(extents[..i])
    ensures var e, cursor := extents[i], Lengths(extents[..i]);
            && (ExtentOk(e) && e.logical == cursor ==>
                  && ExtentsOk(extents[..i + 1]) && Tiles(extents[..i + 1])
                  && Lengths(extents[..i + 1]) == cursor + e.length
                  && Physical(extents[..i + 1]) == Physical(extents[..i]) + [PhysicalRange(e)])
            && (!ExtentOk(e) || e.logical != cursor ==> !(ExtentsOk(extents) && Tiles(extents)))
  {
    var more := extents[..i + 1];
    assert more[..i] == extents[..i];
    if ExtentOk(extents[i]) && extents[i].logical == Lengths(extents[..i]) {
      TileAdds(extents, i);
    }
  }

  lemma TileAdds(extents: seq<Extent>, i: nat)
    requires i < |extents| && ExtentsOk(extents[..i]) && Tiles(extents[..i])
    requires ExtentOk(extents[i]) && extents[i].logical == Lengths(extents[..i])
    ensures ExtentsOk(extents[..i + 1]) && Tiles(extents[..i + 1])
  {
    var more := extents[..i + 1];
    forall k | 0 <= k < |more| ensures ExtentOk(more[k]) && more[k].logical == Lengths(more[..k]) {
      assert more[..k] == extents[..k];
      if k < i {
        assert more[k] == extents[..i][k] && extents[..i][..k] == extents[..k];
      }
    }
  }

  lemma FrontOk(extents: seq<Extent>)
    requires extents != [] && ExtentsOk(extents) && Tiles(extents)
    ensures ExtentsOk(extents[..|extents| - 1]) && Tiles(extents[..|extents| - 1])
    ensures ExtentOk(extents[|extents| - 1])
    ensures extents[|extents| - 1].logical == Lengths(extents[..|extents| - 1])
  {
    var front := extents[..|extents| - 1];
    forall i | 0 <= i < |front| ensures ExtentOk(front[i]) && front[i].logical == Lengths(front[..i]) {
      assert front[i] == extents[i] && front[..i] == extents[..i];
    }
  }

  /** The physical byte of a logical one. */
  function Locate(extents: seq<Extent>, b: int): Option<int> {
    if extents == [] then None
    else
      var e := extents[|extents| - 1];
      if e.logical <= b < e.logical + e.length then Some(e.physical + (b - e.logical))
      else Locate(extents[..|extents| - 1], b)
  }

  lemma {:induction false} LocateIn(extents: seq<Extent>, b: int)
    requires ExtentsOk(extents) && Tiles(extents)
    ensures Lengths(extents) >= 0
    ensures Locate(extents, b).Some? <==> 0 <= b < Lengths(extents)
    ensures Locate(extents, b).Some? ==> exists i :: LocatedIn(extents, b, i)
  {
    if extents != [] {
      var last := |extents| - 1;
      var front := extents[..last];
      FrontOk(extents);
      LocateIn(front, b);
      if Carries(extents[last], b) {
        assert LocatedIn(extents, b, last);
      } else if Locate(front, b).Some? {
        var i :| LocatedIn(front, b, i);
        assert LocatedIn(extents, b, i);
      }
    }
  }

  /** Extent `i` gives the physical byte of `b`. */
  predicate LocatedIn(extents: seq<Extent>, b: int, i: int) {
    && 0 <= i < |extents| && Carries(extents[i], b)
    && Locate(extents, b) == Some(extents[i].physical + (b - extents[i].logical))
  }

  predicate Carries(e: Extent, b: int) {
    e.logical <= b < e.logical + e.length
  }

  lemma {:induction false} LengthsGrow(extents: seq<Extent>, i: nat, j: nat)
    requires ExtentsOk(extents) && i <= j <= |extents|
    ensures Lengths(extents[..i]) + (if i < j then extents[i].length else 0) <= Lengths(extents[..j])
    decreases j
  {
    if i < j {
      assert extents[..j][..j - 1] == extents[..j - 1];
      assert ExtentOk(extents[j - 1]);
      LengthsGrow(extents, i, j - 1);
    }
  }

  /** The map of an accepted volume is total on its logical bytes, defined nowhere else,
      and sends different logical bytes to different physical ones. */
  lemma LogicalMapInjective(o: Observation, expected: Identity, size: int, b: int, c: int)
    requires Allocates(o, expected, size)
    ensures Locate(o.extents, b).Some? <==> 0 <= b < size
    ensures b != c && 0 <= b < size && 0 <= c < size ==> Locate(o.extents, b) != Locate(o.extents, c)
  {
    var extents := o.extents;
    LocateIn(extents, b);
    LocateIn(extents, c);
    if 0 <= b < size && 0 <= c < size && b != c {
      var i :| LocatedIn(extents, b, i);
      var j :| LocatedIn(extents, c, j);
      var s := Physical(extents);
      assert s[i] == PhysicalRange(extents[i]) && s[j] == PhysicalRange(extents[j]);
      if i < j {
        assert Apart(s[i], s[j]);
      } else if j < i {
        assert Apart(s[j], s[i]);
      }
    }
  }

  lemma {:induction false} TotalIsLengths(extents: seq<Extent>)
    requires ExtentsOk(extents)
    ensures Total(Physical(extents)) == Lengths(extents)
  {
    if extents != [] {
      var last := |extents| - 1;
      TotalIsLengths(extents[..last]);
      assert ExtentOk(extents[last]);
      var r := PhysicalRange(extents[last]);
      assert Physical(extents) == Physical(extents[..last]) + [r];
      TotalSum(Physical(extents[..last]), [r]);
      assert Total([r]) == extents[last].length by { assert [r][1..] == []; }
    }
  }

  lemma PhysicalNonEmpty(extents: seq<Extent>)
    requires ExtentsOk(extents)
    ensures AllNonEmpty(Physical(extents))
  {
    forall i | 0 <= i < |extents| ensures NonEmpty(Physical(extents)[i]) {
      assert ExtentOk(extents[i]);
    }
  }

  /** An accepted volume occupies exactly as many physical bytes as it is large. */
  lemma VolumeOccupiesItsSize(o: Observation, expected: Identity, size: int)
    requires Allocates(o, expected, size)
    ensures |AllBytes(Physical(o.extents))| == size
  {
    TotalIsLengths(o.extents);
    PhysicalNonEmpty(o.extents);
    OccupiedBytes(Physical(o.extents));
  }

  lemma {:induction false} AllBytesSum(a: seq<Range>, b: seq<Range>)
    ensures AllBytes(a + b) == AllBytes(a) + AllBytes(b)
  {
    if a == [] {
      assert a + b == b;
    } else {
      TailOfSum(a, b);
      AllBytesSum(a[1..], b);
    }
  }

  /** The check of one phase, over both volumes together, passes exactly when the volumes
      share no physical byte; then they occupy exactly the sum of their sizes. */
  lemma PhaseExact(o1: Observation, id1: Identity, size1: int, o2: Observation, id2: Identity, size2: int)
    requires Allocates(o1, id1, size1) && Allocates(o2, id2, size2)
    ensures var a, b := Physical(o1.extents), Physical(o2.extents);
            && (Disjoint(a + b) <==> AllBytes(a) !! AllBytes(b))
            && (Disjoint(a + b) <==> |AllBytes(a + b)| == size1 + size2)
  {
    var a, b := Physical(o1.extents), Physical(o2.extents);
    VolumeOccupiesItsSize(o1, id1, size1);
    VolumeOccupiesItsSize(o2, id2, size2);
    TotalIsLengths(o1.extents);
    TotalIsLengths(o2.extents);
    PhysicalNonEmpty(o1.extents);
    PhysicalNonEmpty(o2.extents);
    assert AllNonEmpty(a + b);
    DisjointExact(a + b);
    OccupiedBytes(a + b);
    TotalSum(a, b);
    AllBytesSum(a, b);
    DisjointUnionCount(AllBytes(a), AllBytes(b));
  }
}
