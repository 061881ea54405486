/** Latitude binning into a fixed (orbits x bins) array (ssjlatbin/latbin.py).
    Latitude edges are integer degrees; sample latitudes and values are reals,
    a missing value (NaN) is `None`. */
module Latbin {
  import opened Wrappers
  import opened Sequences
  import opened Tools

  /** `_dawn_dusk`: 1 for dawn (N ascending, S ascending), -1 for dusk. */
  function DawnDusk(hemi: string, ascDesc: string): (r: Result<int>)
    ensures r.Success? <==> (hemi == "N" || hemi == "S") && (ascDesc == "asc" || ascDesc == "desc")
    ensures r.Success? ==> r.value == (if ascDesc == "asc" then 1 else -1)
    ensures r.Failure? ==> r.error == ValueError
  {
    if hemi == "N" && ascDesc == "asc" then Success(1)
    else if hemi == "N" && ascDesc == "desc" then Success(-1)
    else if hemi == "S" && ascDesc == "desc" then Success(-1)
    else if hemi == "S" && ascDesc == "asc" then Success(1)
    else Failure(ValueError)
  }

  datatype Masks = Masks(asc: seq<bool>, desc: seq<bool>)

  /** `_ascending_descending_masks`: the direction of travel from the
      derivative of the latitudes (its last entry repeats the first). */
  function AscDescMasks(glats: seq<real>): (r: Result<Masks>)
    ensures r.Failure? <==> |glats| < 2
    ensures r.Failure? ==> r.error == IndexError
    ensures r.Success? ==> |r.value.asc| == |glats| && |r.value.desc| == |glats|
    ensures r.Success? ==> forall i :: 0 <= i < |glats| ==>
      var step := if i < |glats| - 1 then glats[i + 1] - glats[i] else glats[1] - glats[0];
      (r.value.asc[i] <==> step > 0.0) && (r.value.desc[i] <==> step < 0.0)
  {
    var dlat :- Derivative(glats);
    Success(Masks(seq(|dlat|, i requires 0 <= i < |dlat| => dlat[i] > 0.0),
                  seq(|dlat|, i requires 0 <= i < |dlat| => dlat[i] < 0.0)))
  }

  /** No sample is both ascending and descending, and one that does not move
      in latitude is neither. */
  lemma MasksDisjoint(glats: seq<real>, i: int)
    requires AscDescMasks(glats).Success? && 0 <= i < |glats|
    ensures var m := AscDescMasks(glats).value; !(m.asc[i] && m.desc[i])
    ensures var m := AscDescMasks(glats).value;
      Derivative(glats).value[i] == 0.0 ==> !m.asc[i] && !m.desc[i]
  {
  }

  /** `np.mod` for a positive modulus: the remainder after flooring. */
  function RealMod(x: real, m: real): real
    requires m > 0.0
  {
    x - m * (x / m).Floor as real
  }

  /** The bin-count test exactly as written: `mod(max_lat * 4 / delta_lat, delta_lat) != 0`. */
  predicate LiteralCheckFails(maxLat: int, deltaLat: int)
    requires deltaLat > 0
  {
    RealMod(maxLat as real * 4.0 / deltaLat as real, deltaLat as real) != 0.0
  }

  /** `n_bins = int(round(max_lat * 4 / delta_lat))`, as an integer quotient. */
  function NBins(maxLat: nat, deltaLat: int): nat
    requires deltaLat > 0
  {
    4 * maxLat / deltaLat
  }

  /** How many bins the loops visit in one quadrant: one less than the edges
      `np.arange` makes, which is the same count in all four quadrants. */
  function BinsPerQuadrant(maxLat: nat, deltaLat: int): nat
    requires deltaLat > 0
  {
    (maxLat + 2 * deltaLat - 1) / deltaLat - 1
  }

  datatype Quadrant = Quadrant(hemi: string, ascDesc: string)

  /** The quarters of an orbit in the column order of the output. */
  const Quadrants: seq<Quadrant> :=
    [Quadrant("N", "asc"), Quadrant("N", "desc"), Quadrant("S", "desc"), Quadrant("S", "asc")]

  /** `lat_bin_edges[hemi][asc_desc]`: N-asc 0..max, N-desc max..0, S-desc 0..-max,
      S-asc -max..0, in steps of delta_lat. */
  function QuadrantEdges(q: nat, maxLat: nat, deltaLat: int): (edges: seq<int>)
    requires q < 4 && deltaLat > 0
    ensures |edges| == BinsPerQuadrant(maxLat, deltaLat) + 1
  {
    if q == 0 then Arange(0, maxLat + deltaLat, deltaLat)
    else if q == 1 then Arange(maxLat, 0 - deltaLat, -deltaLat)
    else if q == 2 then Arange(0, -1 * maxLat - deltaLat, -deltaLat)
    else Arange(-1 * maxLat, 0 + deltaLat, deltaLat)
  }

  function QuadrantStart(q: nat, maxLat: nat): int {
    if q == 1 then maxLat else if q == 3 then -(maxLat as int) else 0
  }

  function QuadrantStep(q: nat, deltaLat: int): int {
    if q == 0 || q == 3 then deltaLat else -deltaLat
  }

  datatype Bin = Bin(hemi: string, ascDesc: string, start: int, end: int)

  /** Bin b of quadrant q: between edges b and b + 1. */
  function BinOf(q: nat, b: nat, maxLat: nat, deltaLat: int): (bin: Bin)
    requires q < 4 && deltaLat > 0 && b < BinsPerQuadrant(maxLat, deltaLat)
  {
    var edges := QuadrantEdges(q, maxLat, deltaLat);
    Bin(Quadrants[q].hemi, Quadrants[q].ascDesc, edges[b], edges[b + 1])
  }

  function QuadrantBins(q: nat, maxLat: nat, deltaLat: int): (bins: seq<Bin>)
    requires q < 4 && deltaLat > 0
    ensures |bins| == BinsPerQuadrant(maxLat, deltaLat)
  {
    seq(BinsPerQuadrant(maxLat, deltaLat), b requires 0 <= b < BinsPerQuadrant(maxLat, deltaLat) =>
      BinOf(q, b, maxLat, deltaLat))
  }

  /** The columns the loops visit, in order: quadrant by quadrant, bin by bin. */
  function Layout(maxLat: nat, deltaLat: int): (bins: seq<Bin>)
    requires deltaLat > 0
    ensures |bins| == 4 * BinsPerQuadrant(maxLat, deltaLat)
  {
    QuadrantBins(0, maxLat, deltaLat) + QuadrantBins(1, maxLat, deltaLat)
      + QuadrantBins(2, maxLat, deltaLat) + QuadrantBins(3, maxLat, deltaLat)
  }

  /** Bin membership by latitude: `(start, end]` on increasing edges,
      `[end, start)` on decreasing ones. */
  predicate InLatBin(bin: Bin, lat: real) {
    if bin.start < bin.end then bin.start as real < lat <= bin.end as real
    else lat < bin.start as real && lat >= bin.end as real
  }

  /** Orbit, direction and latitude masks together (no hemisphere test). */
  predicate Selected(bin: Bin, orbitNumber: seq<int>, lats: seq<real>, masks: Masks, o: int, i: int)
    requires |orbitNumber| == |lats| == |masks.asc| == |masks.desc| && 0 <= i < |lats|
  {
    orbitNumber[i] == o && (if bin.ascDesc == "asc" then masks.asc[i] else masks.desc[i]) && InLatBin(bin, lats[i])
  }

  /** `np.nanmean(y[mask])` for one orbit and one bin. */
  function Cell(bin: Bin, orbitNumber: seq<int>, lats: seq<real>, y: seq<Option<real>>, masks: Masks, o: int): Option<real>
    requires |orbitNumber| == |lats| == |y| == |masks.asc| == |masks.desc|
  {
    NanMean(seq(|y|, i requires 0 <= i < |y| => if Selected(bin, orbitNumber, lats, masks, o, i) then y[i] else None))
  }

  /** `df[orbit_mask].index[0]`: the first row of an orbit. */
  function FirstIndexOf(s: seq<int>, x: int): (i: nat)
    requires x in s
    ensures i < |s| && s[i] == x && x !in s[..i]
  {
    if s[0] == x then 0
    else
      var i := FirstIndexOf(s[1..], x) + 1;
      assert s[..i] == [s[0]] + s[1..][..i - 1];
      i
  }

  function Midpoint(bin: Bin): real {
    (bin.start + bin.end) as real / 2.0
  }

  /** The dawn/dusk flag of a bin's quadrant. */
  function Flag(bin: Bin): int {
    if bin.ascDesc == "asc" then 1 else -1
  }

  datatype Binned = Binned(orbitTs: seq<int>, binLats: seq<Option<real>>, flags: seq<Option<int>>,
                           cells: seq<seq<Option<real>>>)

  /** The cell values of one data frame, as a function of bin and orbit. */
  function CellOf(orbitNumber: seq<int>, lats: seq<real>, y: seq<Option<real>>, masks: Masks): (Bin, int) -> Option<real> {
    (bin: Bin, o: int) =>
      if |orbitNumber| == |lats| == |y| == |masks.asc| == |masks.desc| then Cell(bin, orbitNumber, lats, y, masks, o)
      else None
  }

  /** What the fill loops produce: with at least one orbit and more bins in the
      layout than columns, the first orbit's writes run past `n_bins` and raise
      IndexError; otherwise one row per distinct orbit (ascending) and one
      column per bin, with the bin centres and flags set by the first orbit. */
  function FillSpec(orbitNumber: seq<int>, times: seq<int>, cell: (Bin, int) -> Option<real>,
                    maxLat: nat, deltaLat: int): (r: Result<Binned>)
    requires |orbitNumber| == |times| && deltaLat > 0
  {
    var orbits := Unique(orbitNumber);
    var layout, n := Layout(maxLat, deltaLat), NBins(maxLat, deltaLat);
    if |orbits| > 0 && |layout| > n then Failure(IndexError)
    else
      BinCountAtLeastColumns(maxLat, deltaLat);
      assert forall o :: 0 <= o < |orbits| ==> orbits[o] in orbitNumber;
      Success(Binned(
        seq(|orbits|, o requires 0 <= o < |orbits| => times[FirstIndexOf(orbitNumber, orbits[o])]),
        seq(n, j requires 0 <= j < n => if |orbits| > 0 then Some(Midpoint(layout[j])) else None),
        seq(n, j requires 0 <= j < n => if |orbits| > 0 then Some(Flag(layout[j])) else None),
        seq(|orbits|, o requires 0 <= o < |orbits| => seq(n, j requires 0 <= j < n => cell(layout[j], orbits[o])))))
  }

  /** Dawn is exactly the ascending half of an orbit, in both hemispheres. */
  lemma QuadrantFlag(q: nat)
    requires q < 4
    ensures DawnDusk(Quadrants[q].hemi, Quadrants[q].ascDesc) == Success(if Quadrants[q].ascDesc == "asc" then 1 else -1)
  {
  }

  /** The first column of quadrant q: q * m, written out for the four quadrants. */
  function QuadrantBase(q: nat, m: nat): nat {
    if q == 0 then 0 else if q == 1 then m else if q == 2 then 2 * m else if q == 3 then 3 * m else 4 * m
  }

  /** Column `q * m + b` of the layout is bin b of quadrant q. */
  lemma LayoutAt(maxLat: nat, deltaLat: int, q: nat, b: nat)
    requires deltaLat > 0 && q < 4 && b < BinsPerQuadrant(maxLat, deltaLat)
    ensures QuadrantBase(q, BinsPerQuadrant(maxLat, deltaLat)) + b < |Layout(maxLat, deltaLat)|
    ensures Layout(maxLat, deltaLat)[QuadrantBase(q, BinsPerQuadrant(maxLat, deltaLat)) + b] == BinOf(q, b, maxLat, deltaLat)
  {
    var m := BinsPerQuadrant(maxLat, deltaLat);
    var q0, q1, q2, q3 := QuadrantBins(0, maxLat, deltaLat), QuadrantBins(1, maxLat, deltaLat),
                          QuadrantBins(2, maxLat, deltaLat), QuadrantBins(3, maxLat, deltaLat);
    var all := q0 + q1 + q2 + q3;
    assert Layout(maxLat, deltaLat) == all;
    if q == 0 {
      assert all[b] == q0[b];
    } else if q == 1 {
      assert all[m + b] == q1[b];
    } else if q == 2 {
      assert all[2 * m + b] == q2[b];
    } else {
      assert all[3 * m + b] == q3[b];
    }
  }

  /** Cancelling a positive factor: a * d < (b + 1) * d means a <= b. */
  lemma MulCancelLt(a: int, b: int, d: int)
    requires d > 0 && a * d < b * d + d
    ensures a <= b
  {
    if a > b {
      MulLeft(b + 1, a, d);
      assert false;
    }
  }

  /** Integer division is determined by a quotient and an in-range remainder. */
  lemma DivUnique(n: int, d: int, q: int, r: int)
    requires d > 0 && 0 <= r < d && n == q * d + r
    ensures n / d == q && n % d == r
  {
    var q', r' := n / d, n % d;
    assert n == q' * d + r' && 0 <= r' < d;
    MulCancelLt(q', q, d);
    MulCancelLt(q, q', d);
  }

  /** There are never fewer bins than columns: 4 * ceil(max / d) >= 4 * max / d. */
  lemma BinCountAtLeastColumns(maxLat: nat, deltaLat: int)
    requires deltaLat > 0
    ensures |Layout(maxLat, deltaLat)| >= NBins(maxLat, deltaLat)
  {
    var d, m, n := deltaLat, BinsPerQuadrant(maxLat, deltaLat), NBins(maxLat, deltaLat);
    CeilDiv(maxLat + 2 * d - 1, d);
    CeilDiv(4 * maxLat, d);
    assert (m + 1) * d == m * d + d;
    assert m * d >= maxLat;
    assert (4 * m) * d == 4 * (m * d);
    MulCancelLt(n, 4 * m, d);
  }

  /** The bins fill the columns exactly when delta_lat divides max_lat; when it
      does not, there are more bins than columns. */
  lemma ColumnsMatchIff(maxLat: nat, deltaLat: int)
    requires deltaLat > 0
    ensures |Layout(maxLat, deltaLat)| == NBins(maxLat, deltaLat) <==> maxLat % deltaLat == 0
  {
    var d, q, r := deltaLat, maxLat / deltaLat, maxLat % deltaLat;
    assert maxLat == q * d + r;
    if r == 0 {
      assert maxLat + 2 * d - 1 == (q + 1) * d + (d - 1);
      DivUnique(maxLat + 2 * d - 1, d, q + 1, d - 1);
      assert 4 * maxLat == (4 * q) * d + 0;
      DivUnique(4 * maxLat, d, 4 * q, 0);
    } else {
      assert maxLat + 2 * d - 1 == (q + 2) * d + (r - 1);
      DivUnique(maxLat + 2 * d - 1, d, q + 2, r - 1);
      var e, f := 4 * r / d, 4 * r % d;
      assert 4 * r == e * d + f && 0 <= f < d;
      assert 4 * maxLat == (4 * q + e) * d + f;
      DivUnique(4 * maxLat, d, 4 * q + e, f);
      MulCancelLt(e, 3, d);
    }
  }

  /** The body of the innermost loop: the bin's centre and dawn/dusk flag for
      the first orbit, then the cell. */
  method VisitBin(binned: array2<Option<real>>, binLats: array<Option<real>>, flags: array<Option<int>>,
                  io: nat, k: nat, first: bool, bin: Bin, value: Option<real>)
    requires io < binned.Length0 && k < binned.Length1 == binLats.Length == flags.Length
    requires DawnDusk(bin.hemi, bin.ascDesc).Success?
    modifies binned, binLats, flags
    ensures forall o, j :: 0 <= o < binned.Length0 && 0 <= j < binned.Length1 ==>
      binned[o, j] == if o == io && j == k then value else old(binned[o, j])
    ensures forall j :: 0 <= j < binLats.Length ==>
      binLats[j] == if first && j == k then Some(Midpoint(bin)) else old(binLats[j])
    ensures forall j :: 0 <= j < flags.Length ==>
      flags[j] == if first && j == k then Some(Flag(bin)) else old(flags[j])
  {
    if first {
      binLats[k] := Some((bin.start + bin.end) as real / 2.0);
      flags[k] := Some(DawnDusk(bin.hemi, bin.ascDesc).value);
    }
    binned[io, k] := value;
  }

  /** The innermost loop of `bin_by_latitude`: the bins of quadrant q, written
      from column k0 on; the labels are written only for the first orbit. It
      stops with `ok` false at the first column past the end. */
  method FillQuadrant(binned: array2<Option<real>>, binLats: array<Option<real>>, flags: array<Option<int>>,
                      io: nat, first: bool, q: nat, k0: nat, maxLat: nat, deltaLat: int,
                      cell: (Bin, int) -> Option<real>, orbit: int) returns (k: nat, ok: bool)
    requires deltaLat > 0 && q < 4 && io < binned.Length0
    requires binned.Length1 == binLats.Length == flags.Length == NBins(maxLat, deltaLat)
    requires k0 == QuadrantBase(q, BinsPerQuadrant(maxLat, deltaLat)) && k0 <= binned.Length1
    modifies binned, binLats, flags
    ensures ok ==> k == k0 + BinsPerQuadrant(maxLat, deltaLat) <= binned.Length1
    ensures !ok ==> |Layout(maxLat, deltaLat)| > binned.Length1
    ensures ok ==> forall o, j :: 0 <= o < binned.Length0 && 0 <= j < binned.Length1 ==>
      binned[o, j] == if o == io && k0 <= j < k then cell(Layout(maxLat, deltaLat)[j], orbit) else old(binned[o, j])
    ensures ok ==> forall j :: 0 <= j < binLats.Length ==>
      binLats[j] == if first && k0 <= j < k then Some(Midpoint(Layout(maxLat, deltaLat)[j])) else old(binLats[j])
    ensures ok ==> forall j :: 0 <= j < flags.Length ==>
      flags[j] == if first && k0 <= j < k then Some(Flag(Layout(maxLat, deltaLat)[j])) else old(flags[j])
  {
    ghost var layout := Layout(maxLat, deltaLat);
    var n := binned.Length1;
    var edges := QuadrantEdges(q, maxLat, deltaLat);
    QuadrantFlag(q);
    k := k0;
    for b := 0 to |edges| - 1
      invariant k == k0 + b <= n
      invariant forall o, j :: 0 <= o < binned.Length0 && 0 <= j < n ==>
        binned[o, j] == if o == io && k0 <= j < k then cell(layout[j], orbit) else old(binned[o, j])
      invariant forall j :: 0 <= j < n ==>
        binLats[j] == if first && k0 <= j < k then Some(Midpoint(layout[j])) else old(binLats[j])
      invariant forall j :: 0 <= j < n ==>
        flags[j] == if first && k0 <= j < k then Some(Flag(layout[j])) else old(flags[j])
    {
      LayoutAt(maxLat, deltaLat, q, b);
      var bin := Bin(Quadrants[q].hemi, Quadrants[q].ascDesc, edges[b], edges[b + 1]);
      assert bin == layout[k];
      if k >= n {
        return k, false;
      }
      VisitBin(binned, binLats, flags, io, k, first, bin, cell(bin, orbit));
      k := k + 1;
    }
    ok := true;
  }

  /** One orbit's row: the four quadrants in turn with a running column counter. */
  method FillRow(binned: array2<Option<real>>, binLats: array<Option<real>>, flags: array<Option<int>>,
                 io: nat, first: bool, maxLat: nat, deltaLat: int,
                 cell: (Bin, int) -> Option<real>, orbit: int) returns (ok: bool)
    requires deltaLat > 0 && io < binned.Length0
    requires binned.Length1 == binLats.Length == flags.Length == NBins(maxLat, deltaLat)
    modifies binned, binLats, flags
    ensures ok <==> |Layout(maxLat, deltaLat)| == binned.Length1
    ensures ok ==> forall o, j :: 0 <= o < binned.Length0 && 0 <= j < binned.Length1 ==>
      binned[o, j] == if o == io then cell(Layout(maxLat, deltaLat)[j], orbit) else old(binned[o, j])
    ensures ok ==> forall j :: 0 <= j < binLats.Length ==>
      binLats[j] == if first then Some(Midpoint(Layout(maxLat, deltaLat)[j])) else old(binLats[j])
    ensures ok ==> forall j :: 0 <= j < flags.Length ==>
      flags[j] == if first then Some(Flag(Layout(maxLat, deltaLat)[j])) else old(flags[j])
  {
    ghost var layout := Layout(maxLat, deltaLat);
    BinCountAtLeastColumns(maxLat, deltaLat);
    var n := binned.Length1;
    var m := BinsPerQuadrant(maxLat, deltaLat);
    var k := 0;
    for q := 0 to 4
      invariant k == QuadrantBase(q, m) <= n
      invariant forall o, j :: 0 <= o < binned.Length0 && 0 <= j < n ==>
        binned[o, j] == if o == io && j < k then cell(layout[j], orbit) else old(binned[o, j])
      invariant forall j :: 0 <= j < n ==>
        binLats[j] == if first && j < k then Some(Midpoint(layout[j])) else old(binLats[j])
      invariant forall j :: 0 <= j < n ==>
        flags[j] == if first && j < k then Some(Flag(layout[j])) else old(flags[j])
    {
      var next, okq := FillQuadrant(binned, binLats, flags, io, first, q, k, maxLat, deltaLat, cell, orbit);
      if !okq {
        return false;
      }
      k := next;
    }
    ok := true;
  }

  /** The orbit loop of `bin_by_latitude`: per orbit, its first timestamp and
      its row of cells; `ok` is false when the first orbit runs past `n_bins`. */
  method FillOrbits(orbits: seq<int>, orbitNumber: seq<int>, times: seq<int>, cell: (Bin, int) -> Option<real>,
                    maxLat: nat, deltaLat: int)
    returns (ok: bool, orbitTs: array<int>, binLats: array<Option<real>>, flags: array<Option<int>>,
             binned: array2<Option<real>>)
    requires |orbitNumber| == |times| && deltaLat > 0
    requires forall o :: 0 <= o < |orbits| ==> orbits[o] in orbitNumber
    ensures ok <==> |orbits| == 0 || |Layout(maxLat, deltaLat)| == NBins(maxLat, deltaLat)
    ensures orbitTs.Length == binned.Length0 == |orbits|
    ensures binLats.Length == flags.Length == binned.Length1 == NBins(maxLat, deltaLat)
    ensures ok ==> forall o :: 0 <= o < |orbits| ==> orbitTs[o] == times[FirstIndexOf(orbitNumber, orbits[o])]
    ensures ok ==> forall o, j :: 0 <= o < |orbits| && 0 <= j < binned.Length1 ==>
      binned[o, j] == cell(Layout(maxLat, deltaLat)[j], orbits[o])
    ensures ok ==> forall j :: 0 <= j < binLats.Length ==>
      binLats[j] == (if |orbits| > 0 then Some(Midpoint(Layout(maxLat, deltaLat)[j])) else None)
    ensures ok ==> forall j :: 0 <= j < flags.Length ==>
      flags[j] == (if |orbits| > 0 then Some(Flag(Layout(maxLat, deltaLat)[j])) else None)
  {
    var n := NBins(maxLat, deltaLat);
    ghost var layout := Layout(maxLat, deltaLat);
    BinCountAtLeastColumns(maxLat, deltaLat);
    binned := new Option<real>[|orbits|, n]((_, _) => None);
    orbitTs := new int[|orbits|](_ => 0);
    binLats := new Option<real>[n](_ => None);
    flags := new Option<int>[n](_ => None);
    for io := 0 to |orbits|
      invariant io > 0 ==> |layout| == n
      invariant forall o :: 0 <= o < io ==> orbitTs[o] == times[FirstIndexOf(orbitNumber, orbits[o])]
      invariant forall o, j :: 0 <= o < io && 0 <= j < n ==> binned[o, j] == cell(layout[j], orbits[o])
      invariant forall j :: 0 <= j < n ==> binLats[j] == (if io > 0 then Some(Midpoint(layout[j])) else None)
      invariant forall j :: 0 <= j < n ==> flags[j] == (if io > 0 then Some(Flag(layout[j])) else None)
    {
      orbitTs[io] := times[FirstIndexOf(orbitNumber, orbits[io])];
      var rowOk := FillRow(binned, binLats, flags, io, io == 0, maxLat, deltaLat, cell, orbits[io]);
      if !rowOk {
        return false, orbitTs, binLats, flags, binned;
      }
    }
    ok := true;
  }

  /** The loops of `bin_by_latitude` after the masks and the bin-count test. */
  method FillBins(orbitNumber: seq<int>, times: seq<int>, cell: (Bin, int) -> Option<real>,
                  maxLat: nat, deltaLat: int) returns (r: Result<Binned>)
    requires |orbitNumber| == |times| && deltaLat > 0
    ensures r == FillSpec(orbitNumber, times, cell, maxLat, deltaLat)
  {
    var orbits := Unique(orbitNumber);
    assert forall o :: 0 <= o < |orbits| ==> orbits[o] in orbitNumber;
    var ok, orbitTs, binLats, flags, binned := FillOrbits(orbits, orbitNumber, times, cell, maxLat, deltaLat);
    BinCountAtLeastColumns(maxLat, deltaLat);
    if !ok {
      return Failure(IndexError);
    }
    r := Success(Binned(orbitTs[..], binLats[..], flags[..], Rows(binned)));
    assert forall o, j :: 0 <= o < |orbits| && 0 <= j < binned.Length1 ==> r.value.cells[o][j] == binned[o, j];
    FillSpecFrom(orbitNumber, times, cell, maxLat, deltaLat, r.value);
  }

  /** A result whose parts agree element by element with the specification is the specification's result. */
  lemma FillSpecFrom(orbitNumber: seq<int>, times: seq<int>, cell: (Bin, int) -> Option<real>,
                     maxLat: nat, deltaLat: int, b: Binned)
    requires |orbitNumber| == |times| && deltaLat > 0
    requires |Unique(orbitNumber)| == 0 || |Layout(maxLat, deltaLat)| == NBins(maxLat, deltaLat)
    requires |b.orbitTs| == |b.cells| == |Unique(orbitNumber)|
    requires |b.binLats| == |b.flags| == NBins(maxLat, deltaLat)
    requires forall o :: 0 <= o < |b.orbitTs| ==>
      Unique(orbitNumber)[o] in orbitNumber && b.orbitTs[o] == times[FirstIndexOf(orbitNumber, Unique(orbitNumber)[o])]
    requires forall o :: 0 <= o < |b.cells| ==> |b.cells[o]| == NBins(maxLat, deltaLat)
    requires forall o, j :: 0 <= o < |b.cells| && 0 <= j < |b.cells[o]| ==>
      j < |Layout(maxLat, deltaLat)| && b.cells[o][j] == cell(Layout(maxLat, deltaLat)[j], Unique(orbitNumber)[o])
    requires forall j :: 0 <= j < |b.binLats| ==>
      j < |Layout(maxLat, deltaLat)| && b.binLats[j] == (if |b.orbitTs| > 0 then Some(Midpoint(Layout(maxLat, deltaLat)[j])) else None)
    requires forall j :: 0 <= j < |b.flags| ==>
      j < |Layout(maxLat, deltaLat)| && b.flags[j] == (if |b.orbitTs| > 0 then Some(Flag(Layout(maxLat, deltaLat)[j])) else None)
    ensures FillSpec(orbitNumber, times, cell, maxLat, deltaLat) == Success(b)
  {
    var orbits, layout, n := Unique(orbitNumber), Layout(maxLat, deltaLat), NBins(maxLat, deltaLat);
    assert b.orbitTs == seq(|orbits|, o requires 0 <= o < |orbits| => times[FirstIndexOf(orbitNumber, orbits[o])]);
    assert b.binLats == seq(n, j requires 0 <= j < n => if |orbits| > 0 then Some(Midpoint(layout[j])) else None);
    assert b.flags == seq(n, j requires 0 <= j < n => if |orbits| > 0 then Some(Flag(layout[j])) else None);
    ghost var cells := seq(|orbits|, o requires 0 <= o < |orbits| => seq(n, j requires 0 <= j < n => cell(layout[j], orbits[o])));
    forall o | 0 <= o < |orbits|
      ensures b.cells[o] == cells[o]
    {
    }
    assert b.cells == cells;
  }

  /** `bin_by_latitude`: the direction masks (IndexError for fewer than two
      samples), then the literal bin-count test (ValueError), then the loops. */
  method BinByLatitude(orbitNumber: seq<int>, times: seq<int>, glats: seq<real>, lats: seq<real>,
                       y: seq<Option<real>>, deltaLat: int, maxLat: nat) returns (r: Result<Binned>)
    requires |orbitNumber| == |times| == |glats| == |lats| == |y|
    requires deltaLat > 0
    ensures |glats| < 2 ==> r == Failure(IndexError)
    ensures |glats| >= 2 && LiteralCheckFails(maxLat, deltaLat) ==> r == Failure(ValueError)
    ensures |glats| >= 2 && !LiteralCheckFails(maxLat, deltaLat) ==>
      r == FillSpec(orbitNumber, times, CellOf(orbitNumber, lats, y, AscDescMasks(glats).value), maxLat, deltaLat)
  {
    var masks :- AscDescMasks(glats);
    if LiteralCheckFails(maxLat, deltaLat) {
      return Failure(ValueError);
    }
    r := FillBins(orbitNumber, times, CellOf(orbitNumber, lats, y, masks), maxLat, deltaLat);
  }

  /** Bin b of quadrant q lies between start + b * step and start + (b + 1) * step
      of its quadrant's edge list. */
  lemma BinEdges(q: nat, b: nat, maxLat: nat, deltaLat: int)
    requires q < 4 && deltaLat > 0 && b < BinsPerQuadrant(maxLat, deltaLat)
    ensures BinOf(q, b, maxLat, deltaLat).hemi == Quadrants[q].hemi
    ensures BinOf(q, b, maxLat, deltaLat).ascDesc == Quadrants[q].ascDesc
    ensures BinOf(q, b, maxLat, deltaLat).start == QuadrantStart(q, maxLat) + b * QuadrantStep(q, deltaLat)
    ensures BinOf(q, b, maxLat, deltaLat).end == QuadrantStart(q, maxLat) + (b + 1) * QuadrantStep(q, deltaLat)
  {
  }

  /** Within one quadrant no latitude lies in two bins. */
  lemma QuadrantBinsDisjoint(q: nat, b1: nat, b2: nat, maxLat: nat, deltaLat: int, lat: real)
    requires q < 4 && deltaLat > 0 && b1 < b2 < BinsPerQuadrant(maxLat, deltaLat)
    ensures !(InLatBin(BinOf(q, b1, maxLat, deltaLat), lat) && InLatBin(BinOf(q, b2, maxLat, deltaLat), lat))
  {
    var bin1, bin2 := BinOf(q, b1, maxLat, deltaLat), BinOf(q, b2, maxLat, deltaLat);
    BinEdges(q, b1, maxLat, deltaLat);
    BinEdges(q, b2, maxLat, deltaLat);
    MulLeft(b1 + 1, b2, deltaLat);
    if q == 0 || q == 3 {
      assert bin1.start < bin1.end <= bin2.start < bin2.end;
    } else {
      assert (b1 + 1) * -deltaLat == -((b1 + 1) * deltaLat) && b1 * -deltaLat == -(b1 * deltaLat);
      assert (b2 + 1) * -deltaLat == -((b2 + 1) * deltaLat) && b2 * -deltaLat == -(b2 * deltaLat);
      assert bin2.end < bin2.start <= bin1.end < bin1.start;
    }
  }

  /** A cell with no selected sample (or only missing values) is missing. */
  lemma EmptyCellIsMissing(bin: Bin, orbitNumber: seq<int>, lats: seq<real>, y: seq<Option<real>>, masks: Masks, o: int)
    requires |orbitNumber| == |lats| == |y| == |masks.asc| == |masks.desc|
    requires forall i :: 0 <= i < |y| && Selected(bin, orbitNumber, lats, masks, o, i) ==> y[i].None?
    ensures Cell(bin, orbitNumber, lats, y, masks, o).None?
  {
  }

  /** With delta_lat dividing max_lat, each quadrant holds max_lat / delta_lat bins
      and `n_bins` is four times that. */
  lemma ExactQuadrantBins(maxLat: nat, deltaLat: int)
    requires deltaLat > 0 && maxLat % deltaLat == 0
    ensures BinsPerQuadrant(maxLat, deltaLat) == maxLat / deltaLat
    ensures NBins(maxLat, deltaLat) == 4 * (maxLat / deltaLat)
  {
    var d, q := deltaLat, maxLat / deltaLat;
    assert maxLat == q * d;
    assert maxLat + 2 * d - 1 == (q + 1) * d + (d - 1);
    DivUnique(maxLat + 2 * d - 1, d, q + 1, d - 1);
    assert 4 * maxLat == (4 * q) * d + 0;
    DivUnique(4 * maxLat, d, 4 * q, 0);
  }

  /** The floor of an exact quotient of integers is their integer quotient. */
  lemma RealFloorDiv(k: int, den: int)
    requires den > 0
    ensures (k as real / den as real).Floor == k / den
  {
    var f, r := k / den, k % den;
    assert k == f * den + r;
    assert k as real == f as real * den as real + r as real;
    assert k as real / den as real == f as real + r as real / den as real;
    assert 0.0 <= r as real / den as real < 1.0;
  }

  /** What the literal test computes: it fails exactly when delta_lat squared
      does not divide 4 * max_lat, which is not the same as an integer bin count. */
  lemma LiteralCheckMeaning(maxLat: nat, deltaLat: int)
    requires deltaLat > 0
    ensures LiteralCheckFails(maxLat, deltaLat) <==> (4 * maxLat) % (deltaLat * deltaLat) != 0
  {
    var k, den := 4 * maxLat, deltaLat * deltaLat;
    var dr := deltaLat as real;
    var x := maxLat as real * 4.0 / dr;
    assert x == k as real / dr;
    assert x / dr == k as real / den as real;
    RealFloorDiv(k, den);
    var f := k / den;
    assert RealMod(x, dr) == x - dr * f as real;
    assert dr * f as real == (den * f) as real / dr;
    assert x - dr * f as real == (k - den * f) as real / dr;
    assert k == den * f + k % den;
  }

  /** Finding: the default configuration (max_lat 80, delta_lat 5) is rejected by
      the literal test although it gives exactly 64 columns of 16 bins per quadrant. */
  lemma DefaultConfigRejected()
    ensures LiteralCheckFails(80, 5)
    ensures 80 % 5 == 0 && |Layout(80, 5)| == NBins(80, 5) == 64
  {
    LiteralCheckMeaning(80, 5);
    ColumnsMatchIff(80, 5);
  }

  /** Finding: max_lat 1, delta_lat 2 passes the literal test, yet the layout has
      four bins for two columns, so any frame with an orbit ends in IndexError. */
  lemma OverrunPassesCheck(orbitNumber: seq<int>, times: seq<int>, cell: (Bin, int) -> Option<real>)
    requires |orbitNumber| == |times| > 0
    ensures !LiteralCheckFails(1, 2)
    ensures FillSpec(orbitNumber, times, cell, 1, 2) == Failure(IndexError)
  {
    LiteralCheckMeaning(1, 2);
    assert orbitNumber[0] in Unique(orbitNumber);
    assert |Layout(1, 2)| == 4 && NBins(1, 2) == 2;
  }

  /** The evidently intended test: reject a max_lat that is not a whole number of bins. */
  predicate IntendedCheckFails(maxLat: nat, deltaLat: int)
    requires deltaLat > 0
  {
    maxLat % deltaLat != 0
  }

  /** The intended test rejects exactly the configurations whose bins would overrun
      the columns: with at least one orbit, the fill succeeds iff the test passes. */
  lemma IntendedCheckIsExact(orbitNumber: seq<int>, times: seq<int>, cell: (Bin, int) -> Option<real>,
                             maxLat: nat, deltaLat: int)
    requires |orbitNumber| == |times| > 0 && deltaLat > 0
    ensures FillSpec(orbitNumber, times, cell, maxLat, deltaLat).Success? <==> !IntendedCheckFails(maxLat, deltaLat)
  {
    assert orbitNumber[0] in Unique(orbitNumber);
    ColumnsMatchIff(maxLat, deltaLat);
    BinCountAtLeastColumns(maxLat, deltaLat);
  }

  /** `bin_by_latitude` with the intended bin-count test: once the test passes,
      the loops never run past the columns. */
  method BinByLatitudeIntended(orbitNumber: seq<int>, times: seq<int>, glats: seq<real>, lats: seq<real>,
                               y: seq<Option<real>>, deltaLat: int, maxLat: nat) returns (r: Result<Binned>)
    requires |orbitNumber| == |times| == |glats| == |lats| == |y|
    requires deltaLat > 0
    ensures |glats| < 2 ==> r == Failure(IndexError)
    ensures |glats| >= 2 && IntendedCheckFails(maxLat, deltaLat) ==> r == Failure(ValueError)
    ensures |glats| >= 2 && !IntendedCheckFails(maxLat, deltaLat) ==> r.Success?
    ensures |glats| >= 2 && !IntendedCheckFails(maxLat, deltaLat) ==>
      r == FillSpec(orbitNumber, times, CellOf(orbitNumber, lats, y, AscDescMasks(glats).value), maxLat, deltaLat)
  {
    var masks :- AscDescMasks(glats);
    if IntendedCheckFails(maxLat, deltaLat) {
      return Failure(ValueError);
    }
    ColumnsMatchIff(maxLat, deltaLat);
    r := FillBins(orbitNumber, times, CellOf(orbitNumber, lats, y, masks), maxLat, deltaLat);
  }
}
