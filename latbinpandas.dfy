/** Latitude binning by labels (ssjlatbin/latbin_pandas.py): every sample gets
    at most one bin label such as `dawn_42.5`, and the frame is averaged per
    (orbit, label). Its conventions differ from the array variant in latbin.dfy:
    hemisphere by `pd.cut` (S for (-91, 0], N for (0, 91]), descending for a
    latitude derivative <= 0, and bins `[min, max)` of their two edges. The edge
    lists are built by the same code as in the array variant, so the bin layout
    `Latbin.Layout` is shared; nothing else is. */
module LatbinPandas {
  import opened Wrappers
  import opened Sequences
  import opened Text
  import Latbin

  /** `_dawn_dusk`: 'dawn' for N ascending and S ascending, 'dusk' for N and S descending. */
  function DawnDusk(hemi: string, ascDesc: string): (r: Result<string>)
    ensures r.Success? <==> (hemi == "N" || hemi == "S") && (ascDesc == "asc" || ascDesc == "desc")
    ensures r.Success? ==> r.value == (if ascDesc == "asc" then "dawn" else "dusk")
    ensures r.Failure? ==> r.error == ValueError
  {
    if hemi == "N" && ascDesc == "asc" then Success("dawn")
    else if hemi == "N" && ascDesc == "desc" then Success("dusk")
    else if hemi == "S" && ascDesc == "desc" then Success("dusk")
    else if hemi == "S" && ascDesc == "asc" then Success("dawn")
    else Failure(ValueError)
  }

  /** `lat_bin_edges`, the dictionary `define_latbins` returns. */
  datatype LatbinEdges = LatbinEdges(nAsc: seq<int>, nDesc: seq<int>, sDesc: seq<int>, sAsc: seq<int>)

  /** `define_latbins`: N-asc 0 up to max, N-desc max down to 0, S-desc 0 down
      to -max, S-asc -max up to 0, in steps of delta_lat, each list stopping at
      the first edge that reaches or passes its end. */
  function DefineLatbins(deltaLat: int, maxLat: nat): (e: LatbinEdges)
    requires deltaLat > 0
    ensures var m := Latbin.BinsPerQuadrant(maxLat, deltaLat);
      |e.nAsc| == m + 1 && |e.nDesc| == m + 1 && |e.sDesc| == m + 1 && |e.sAsc| == m + 1
    ensures forall i :: 0 <= i < |e.nAsc| ==> e.nAsc[i] == i * deltaLat && e.sDesc[i] == -(i * deltaLat)
    ensures forall i :: 0 <= i < |e.nDesc| ==> e.nDesc[i] == maxLat - i * deltaLat && e.sAsc[i] == i * deltaLat - maxLat
    ensures e.nAsc[|e.nAsc| - 1] >= maxLat && e.nAsc[|e.nAsc| - 1] < maxLat + deltaLat
    ensures forall q :: 0 <= q < 4 ==> EdgesOf(e, q) == Latbin.QuadrantEdges(q, maxLat, deltaLat)
  {
    var e := LatbinEdges(Arange(0, maxLat + deltaLat, deltaLat), Arange(maxLat, 0 - deltaLat, -deltaLat),
                         Arange(0, -1 * maxLat - deltaLat, -deltaLat), Arange(-1 * maxLat, 0 + deltaLat, deltaLat));
    assert e.nAsc == Latbin.QuadrantEdges(0, maxLat, deltaLat) && e.nDesc == Latbin.QuadrantEdges(1, maxLat, deltaLat);
    assert e.sDesc == Latbin.QuadrantEdges(2, maxLat, deltaLat) && e.sAsc == Latbin.QuadrantEdges(3, maxLat, deltaLat);
    forall i | 0 <= i < |e.nAsc|
      ensures e.sDesc[i] == -(i * deltaLat)
    {
      assert i * -deltaLat == -(i * deltaLat);
    }
    ArangeStopsAtStop(0, maxLat + deltaLat, deltaLat);
    e
  }

  /** `lat_bin_edges[hemi][asc_desc]` for quadrant q. */
  function EdgesOf(e: LatbinEdges, q: nat): seq<int>
    requires q < 4
  {
    if q == 0 then e.nAsc else if q == 1 then e.nDesc else if q == 2 then e.sDesc else e.sAsc
  }

  /** Sector, underscore, formatted centre. */
  function LabelText(sector: string, edgeSum: int): (name: string) {
    sector + "_" + FormatTenths(5 * edgeSum)
  }

  /** The text splits back into the sector and the centre. */
  lemma LabelTextPieces(sector: string, edgeSum: int)
    requires '_' !in sector
    ensures Split(LabelText(sector, edgeSum), '_') == [sector, FormatTenths(5 * edgeSum)]
  {
    FormatTenthsChars(5 * edgeSum);
    assert '_' !in FormatTenths(5 * edgeSum);
    SplitTwo(sector, FormatTenths(5 * edgeSum), '_');
  }

  /** `latbin_label`: the sector, an underscore and the bin centre to one decimal
      (five times the sum of two integer edges is the centre in tenths); a
      quadrant without a sector is a ValueError. */
  function LatbinLabel(lat1: int, lat2: int, hemi: string, ascDesc: string): (r: Result<string>)
    ensures r.Success? <==> DawnDusk(hemi, ascDesc).Success?
    ensures r.Failure? ==> r.error == ValueError
  {
    var sector :- DawnDusk(hemi, ascDesc);
    Success(LabelText(sector, lat1 + lat2))
  }

  /** A label splits into its sector and its centre text. */
  lemma LatbinLabelPieces(lat1: int, lat2: int, hemi: string, ascDesc: string)
    requires DawnDusk(hemi, ascDesc).Success?
    ensures Split(LatbinLabel(lat1, lat2, hemi, ascDesc).value, '_') == [DawnDusk(hemi, ascDesc).value, FormatTenths(5 * (lat1 + lat2))]
  {
    var sector := DawnDusk(hemi, ascDesc).value;
    SectorPlain(ascDesc);
    assert sector == Sector(ascDesc);
    LabelTextPieces(sector, lat1 + lat2);
  }

  /** The formatted centre parses to half the edge sum. */
  lemma CentreValue(edgeSum: int)
    ensures ParseDecimal(FormatTenths(5 * edgeSum)) == Success(edgeSum as real / 2.0)
  {
    ParseFormatTenths(5 * edgeSum);
    assert (5 * edgeSum) as real / 10.0 == edgeSum as real / 2.0;
  }

  function Sector(ascDesc: string): string {
    if ascDesc == "asc" then "dawn" else "dusk"
  }

  /** The sum of a bin's edges, twice its centre. */
  function EdgeSum(bin: Latbin.Bin): int {
    bin.start + bin.end
  }

  /** The label of a bin of the layout. */
  function Category(bin: Latbin.Bin): string {
    LabelText(Sector(bin.ascDesc), EdgeSum(bin))
  }

  /** The loops label bin b of quadrant q with its category. */
  lemma LabelOfBin(q: nat, b: nat, maxLat: nat, deltaLat: int)
    requires q < 4 && deltaLat > 0 && b < Latbin.BinsPerQuadrant(maxLat, deltaLat)
    ensures var bin := Latbin.BinOf(q, b, maxLat, deltaLat);
      LatbinLabel(bin.start, bin.end, Latbin.Quadrants[q].hemi, Latbin.Quadrants[q].ascDesc) == Success(Category(bin))
  {
    QuadrantSector(q);
  }

  /** The sector `_dawn_dusk` gives each quadrant of the layout. */
  lemma QuadrantSector(q: nat)
    requires q < 4
    ensures DawnDusk(Latbin.Quadrants[q].hemi, Latbin.Quadrants[q].ascDesc) == Success(Sector(Latbin.Quadrants[q].ascDesc))
  {
    if q == 0 {
      assert Latbin.Quadrants[q] == Latbin.Quadrant("N", "asc");
    } else if q == 1 {
      assert Latbin.Quadrants[q] == Latbin.Quadrant("N", "desc");
    } else if q == 2 {
      assert Latbin.Quadrants[q] == Latbin.Quadrant("S", "desc");
    } else {
      assert Latbin.Quadrants[q] == Latbin.Quadrant("S", "asc");
    }
  }

  /** The categories in the order the loops append them: one per bin, quadrant by quadrant. */
  function Categories(maxLat: nat, deltaLat: int): (cats: seq<string>)
    requires deltaLat > 0
    ensures |cats| == |Latbin.Layout(maxLat, deltaLat)|
  {
    var layout := Latbin.Layout(maxLat, deltaLat);
    seq(|layout|, j requires 0 <= j < |layout| => Category(layout[j]))
  }

  /** The quadrant of layout position j, for m bins per quadrant. */
  function IndexQuadrant(j: nat, m: nat): (q: nat)
    requires j < 4 * m
    ensures q < 4 && Latbin.QuadrantBase(q, m) <= j < Latbin.QuadrantBase(q, m) + m
  {
    if j < m then 0 else if j < 2 * m then 1 else if j < 3 * m then 2 else 3
  }

  /** Layout position j is bin `j - base` of its quadrant. */
  lemma LayoutIndex(maxLat: nat, deltaLat: int, j: nat)
    requires deltaLat > 0 && j < |Latbin.Layout(maxLat, deltaLat)|
    ensures var m := Latbin.BinsPerQuadrant(maxLat, deltaLat); var q := IndexQuadrant(j, m);
      Latbin.Layout(maxLat, deltaLat)[j] == Latbin.BinOf(q, j - Latbin.QuadrantBase(q, m), maxLat, deltaLat)
  {
    var m := Latbin.BinsPerQuadrant(maxLat, deltaLat);
    var q := IndexQuadrant(j, m);
    Latbin.LayoutAt(maxLat, deltaLat, q, j - Latbin.QuadrantBase(q, m));
  }

  /** The hemisphere `pd.cut(glats, [-91, 0, 91], labels=['S', 'N'])` assigns:
      right-closed intervals, nothing outside them. */
  function Hemisphere(glat: real): (h: Option<string>)
    ensures h == Some("S") <==> -91.0 < glat <= 0.0
    ensures h == Some("N") <==> 0.0 < glat <= 91.0
    ensures h.None? <==> glat <= -91.0 || glat > 91.0
  {
    if -91.0 < glat <= 0.0 then Some("S") else if 0.0 < glat <= 91.0 then Some("N") else None
  }

  /** The direction `pd.cut(dglats, [-inf, 0, inf], labels=['desc', 'asc'])`
      assigns to a finite latitude derivative. */
  function Direction(dglat: real): (d: string)
    ensures d == "desc" <==> dglat <= 0.0
    ensures d == "asc" <==> dglat > 0.0
  {
    if dglat <= 0.0 then "desc" else "asc"
  }

  function Min(a: int, b: int): int {
    if a <= b then a else b
  }

  function Max(a: int, b: int): int {
    if a <= b then b else a
  }

  /** The condition of a bin for one sample: latitude in `[min, max)` of the two
      edges, and hemisphere and direction those of the bin's quadrant. */
  predicate Matches(bin: Latbin.Bin, lat: real, glat: real, dglat: real) {
    Min(bin.start, bin.end) as real <= lat < Max(bin.start, bin.end) as real
    && Hemisphere(glat) == Some(bin.hemi) && Direction(dglat) == bin.ascDesc
  }

  /** The bins of one quadrant cover disjoint latitude ranges. */
  lemma SameQuadrantDisjoint(q: nat, b1: nat, b2: nat, maxLat: nat, deltaLat: int, lat: real)
    requires q < 4 && deltaLat > 0 && b1 < b2 < Latbin.BinsPerQuadrant(maxLat, deltaLat)
    ensures var bin1, bin2 := Latbin.BinOf(q, b1, maxLat, deltaLat), Latbin.BinOf(q, b2, maxLat, deltaLat);
      Max(bin1.start, bin1.end) <= Min(bin2.start, bin2.end) || Max(bin2.start, bin2.end) <= Min(bin1.start, bin1.end)
  {
    BinSpan(q, b1, maxLat, deltaLat);
    BinSpan(q, b2, maxLat, deltaLat);
    MulLeft(b1 + 1, b2, deltaLat);
    MulSucc(b1, deltaLat);
  }

  /** Distinct quadrants differ in hemisphere or in direction. */
  lemma QuadrantsDiffer(q1: nat, q2: nat)
    requires q1 < 4 && q2 < 4 && q1 != q2
    ensures Latbin.Quadrants[q1] != Latbin.Quadrants[q2]
  {
    assert "N"[0] != "S"[0] && "asc"[0] != "desc"[0];
  }

  /** No sample meets the conditions of two bins, so `np.select`'s first match is its only match. */
  lemma BinsDisjoint(maxLat: nat, deltaLat: int, j1: nat, j2: nat, lat: real, glat: real, dglat: real)
    requires deltaLat > 0 && j1 < j2 < |Latbin.Layout(maxLat, deltaLat)|
    ensures var layout := Latbin.Layout(maxLat, deltaLat);
      !(Matches(layout[j1], lat, glat, dglat) && Matches(layout[j2], lat, glat, dglat))
  {
    var m := Latbin.BinsPerQuadrant(maxLat, deltaLat);
    var q1, q2 := IndexQuadrant(j1, m), IndexQuadrant(j2, m);
    var b1, b2 := j1 - Latbin.QuadrantBase(q1, m), j2 - Latbin.QuadrantBase(q2, m);
    LayoutIndex(maxLat, deltaLat, j1);
    LayoutIndex(maxLat, deltaLat, j2);
    Latbin.BinEdges(q1, b1, maxLat, deltaLat);
    Latbin.BinEdges(q2, b2, maxLat, deltaLat);
    if q1 == q2 {
      SameQuadrantDisjoint(q1, b1, b2, maxLat, deltaLat, lat);
    } else {
      QuadrantsDiffer(q1, q2);
    }
  }

  lemma MulDiff(a: int, b: int, d: int)
    ensures a * d - b * d == (a - b) * d
  {
  }

  lemma MulNeg(b: int, d: int)
    ensures b * -d == -(b * d)
  {
  }

  lemma MulSucc(b: int, d: int)
    ensures (b + 1) * d == b * d + d
  {
  }

  /** The edges of bin b of quadrant q in terms of u = b * delta_lat. */
  lemma BinSpan(q: nat, b: nat, maxLat: nat, deltaLat: int)
    requires q < 4 && deltaLat > 0 && b < Latbin.BinsPerQuadrant(maxLat, deltaLat)
    ensures var bin, u := Latbin.BinOf(q, b, maxLat, deltaLat), b * deltaLat;
      (q == 0 ==> bin.start == u && bin.end == u + deltaLat)
      && (q == 1 ==> bin.start == maxLat - u && bin.end == maxLat - u - deltaLat)
      && (q == 2 ==> bin.start == -u && bin.end == -u - deltaLat)
      && (q == 3 ==> bin.start == u - maxLat && bin.end == u - maxLat + deltaLat)
  {
    Latbin.BinEdges(q, b, maxLat, deltaLat);
    MulSucc(b, deltaLat);
    MulNeg(b, deltaLat);
    MulNeg(b + 1, deltaLat);
  }

  /** max_lat is not k bins' worth of latitude for any k short of the bin count:
      either max_lat is a multiple of delta_lat and k falls short of it, or it is
      no multiple at all. */
  lemma ShortOfMax(maxLat: nat, deltaLat: int, k: int)
    requires deltaLat > 0 && k < Latbin.BinsPerQuadrant(maxLat, deltaLat)
    ensures maxLat != k * deltaLat
  {
    if maxLat % deltaLat == 0 {
      Latbin.ExactQuadrantBins(maxLat, deltaLat);
      MulLeft(k, maxLat / deltaLat - 1, deltaLat);
      MulSucc(maxLat / deltaLat - 1, deltaLat);
    } else {
      Latbin.DivUnique(k * deltaLat, deltaLat, k, 0);
    }
  }

  /** Bins of the same sector have different edge sums, hence different centres. */
  lemma EdgeSumsDiffer(q1: nat, b1: nat, q2: nat, b2: nat, maxLat: nat, deltaLat: int)
    requires deltaLat > 0 && q1 < 4 && q2 < 4
    requires b1 < Latbin.BinsPerQuadrant(maxLat, deltaLat) && b2 < Latbin.BinsPerQuadrant(maxLat, deltaLat)
    requires (q1, b1) != (q2, b2) && Dawn(q1) == Dawn(q2)
    ensures var bin1, bin2 := Latbin.BinOf(q1, b1, maxLat, deltaLat), Latbin.BinOf(q2, b2, maxLat, deltaLat);
      EdgeSum(bin1) != EdgeSum(bin2)
  {
    var d := deltaLat;
    BinSpan(q1, b1, maxLat, d);
    BinSpan(q2, b2, maxLat, d);
    MulDiff(b2, b1, d);
    MulDiff(b1, b2, d);
    if b1 < b2 {
      MulLeft(b1 + 1, b2, d);
      MulSucc(b1, d);
    } else if b2 < b1 {
      MulLeft(b2 + 1, b1, d);
      MulSucc(b2, d);
    }
    ShortOfMax(maxLat, d, b2 - b1);
    ShortOfMax(maxLat, d, b1 - b2);
  }

  /** The ascending quadrants, N-asc and S-asc, are the dawn sector. */
  predicate Dawn(q: nat) {
    q == 0 || q == 3
  }

  /** Bin b of quadrant q is labelled dawn when ascending and dusk otherwise. */
  lemma BinSector(q: nat, b: nat, maxLat: nat, deltaLat: int)
    requires q < 4 && deltaLat > 0 && b < Latbin.BinsPerQuadrant(maxLat, deltaLat)
    ensures Sector(Latbin.BinOf(q, b, maxLat, deltaLat).ascDesc) == if Dawn(q) then "dawn" else "dusk"
  {
    assert Latbin.BinOf(q, b, maxLat, deltaLat).ascDesc == Latbin.Quadrants[q].ascDesc;
    assert Latbin.Quadrants[q].ascDesc == if Dawn(q) then "asc" else "desc";
    assert "desc"[0] != "asc"[0];
  }

  /** No sector holds the separator. */
  lemma SectorPlain(ascDesc: string)
    ensures '_' !in Sector(ascDesc)
  {
    assert Sector(ascDesc) == "dawn" || Sector(ascDesc) == "dusk";
  }

  /** Every sector is four letters long. */
  lemma SectorLength(ascDesc: string)
    ensures |Sector(ascDesc)| == 4
  {
  }

  /** Two texts joined by '_' from first pieces of the same length agree piece by piece. */
  lemma LabelsAgree(s1: string, f1: string, s2: string, f2: string)
    requires |s1| == |s2| && s1 + "_" + f1 == s2 + "_" + f2
    ensures s1 == s2 && f1 == f2
  {
    var c := s1 + "_" + f1;
    assert c[..|s1|] == s1 && c[|s1| + 1..] == f1;
    assert c[..|s2|] == s2 && c[|s2| + 1..] == f2;
  }

  /** A label text determines its sector, among sectors of one length, and its edge sum. */
  lemma LabelTextInjective(s1: string, e1: int, s2: string, e2: int)
    requires |s1| == |s2| && LabelText(s1, e1) == LabelText(s2, e2)
    ensures s1 == s2 && e1 == e2
  {
    LabelsAgree(s1, FormatTenths(5 * e1), s2, FormatTenths(5 * e2));
    Text.FormatTenthsInjective(5 * e1, 5 * e2);
  }

  /** Two different bins of the quadrant loops get different categories. */
  lemma BinCategoriesDiffer(q1: nat, b1: nat, q2: nat, b2: nat, maxLat: nat, deltaLat: int)
    requires deltaLat > 0 && q1 < 4 && q2 < 4
    requires b1 < Latbin.BinsPerQuadrant(maxLat, deltaLat) && b2 < Latbin.BinsPerQuadrant(maxLat, deltaLat)
    requires (q1, b1) != (q2, b2)
    ensures Category(Latbin.BinOf(q1, b1, maxLat, deltaLat)) != Category(Latbin.BinOf(q2, b2, maxLat, deltaLat))
  {
    var bin1, bin2 := Latbin.BinOf(q1, b1, maxLat, deltaLat), Latbin.BinOf(q2, b2, maxLat, deltaLat);
    BinSector(q1, b1, maxLat, deltaLat);
    BinSector(q2, b2, maxLat, deltaLat);
    if Dawn(q1) == Dawn(q2) {
      EdgeSumsDiffer(q1, b1, q2, b2, maxLat, deltaLat);
    } else {
      assert Sector(bin1.ascDesc)[1] != Sector(bin2.ascDesc)[1];
    }
    if Category(bin1) == Category(bin2) {
      SectorLength(bin1.ascDesc);
      SectorLength(bin2.ascDesc);
      LabelTextInjective(Sector(bin1.ascDesc), EdgeSum(bin1), Sector(bin2.ascDesc), EdgeSum(bin2));
    }
  }

  /** Distinct bins of the layout get distinct categories, which `pd.Categorical` requires. */
  lemma CategoriesDistinct(maxLat: nat, deltaLat: int, j1: nat, j2: nat)
    requires deltaLat > 0 && j1 < j2 < |Latbin.Layout(maxLat, deltaLat)|
    ensures Categories(maxLat, deltaLat)[j1] != Categories(maxLat, deltaLat)[j2]
  {
    var m := Latbin.BinsPerQuadrant(maxLat, deltaLat);
    var q1, q2 := IndexQuadrant(j1, m), IndexQuadrant(j2, m);
    LayoutIndex(maxLat, deltaLat, j1);
    LayoutIndex(maxLat, deltaLat, j2);
    BinCategoriesDiffer(q1, j1 - Latbin.QuadrantBase(q1, m), q2, j2 - Latbin.QuadrantBase(q2, m), maxLat, deltaLat);
    CategoryAt(maxLat, deltaLat, j1);
    CategoryAt(maxLat, deltaLat, j2);
  }

  lemma CategoryAt(maxLat: nat, deltaLat: int, j: nat)
    requires deltaLat > 0 && j < |Latbin.Layout(maxLat, deltaLat)|
    ensures Categories(maxLat, deltaLat)[j] == Category(Latbin.Layout(maxLat, deltaLat)[j])
  {
  }

  /** `np.select(conditions, choices)` for one row: the choice of the first
      condition that holds, nothing when none does (the default 0 is no
      category, so the Categorical holds NaN there). */
  function Select(conditions: seq<seq<bool>>, choices: seq<string>, i: nat): (r: Option<string>)
    requires |choices| == |conditions| && forall k :: 0 <= k < |conditions| ==> i < |conditions[k]|
    ensures r.None? <==> forall k :: 0 <= k < |conditions| ==> !conditions[k][i]
    ensures r.Some? ==> exists k :: (0 <= k < |conditions| && conditions[k][i] && r.value == choices[k]
      && forall k' :: 0 <= k' < k ==> !conditions[k'][i])
    decreases |conditions|
  {
    if conditions == [] then None
    else if conditions[0][i] then Some(choices[0])
    else
      var r := Select(conditions[1..], choices[1..], i);
      assert forall k :: 0 < k < |conditions| ==> conditions[k] == conditions[1..][k - 1];
      r
  }

  /** The condition of one bin over all samples. */
  function Mask(bin: Latbin.Bin, lats: seq<real>, glats: seq<real>, dglats: seq<real>): (mask: seq<bool>)
    requires |lats| == |glats| == |dglats|
    ensures |mask| == |lats|
  {
    seq(|lats|, i requires 0 <= i < |lats| => Matches(bin, lats[i], glats[i], dglats[i]))
  }

  /** `conditions`: one mask per bin, in layout order. */
  function Conditions(lats: seq<real>, glats: seq<real>, dglats: seq<real>, maxLat: nat, deltaLat: int): (c: seq<seq<bool>>)
    requires |lats| == |glats| == |dglats| && deltaLat > 0
    ensures |c| == |Latbin.Layout(maxLat, deltaLat)|
    ensures forall j :: 0 <= j < |c| ==> |c[j]| == |lats|
  {
    var layout := Latbin.Layout(maxLat, deltaLat);
    seq(|layout|, j requires 0 <= j < |layout| => Mask(layout[j], lats, glats, dglats))
  }

  /** The `latbin` column: `np.select` over the conditions, row by row. */
  function Labels(lats: seq<real>, glats: seq<real>, dglats: seq<real>, maxLat: nat, deltaLat: int): (l: seq<Option<string>>)
    requires |lats| == |glats| == |dglats| && deltaLat > 0
    ensures |l| == |lats|
  {
    var conditions := Conditions(lats, glats, dglats, maxLat, deltaLat);
    seq(|lats|, i requires 0 <= i < |lats| => Select(conditions, Categories(maxLat, deltaLat), i))
  }

  lemma ConditionAt(lats: seq<real>, glats: seq<real>, dglats: seq<real>, maxLat: nat, deltaLat: int, j: nat, i: nat)
    requires |lats| == |glats| == |dglats| && deltaLat > 0 && j < |Latbin.Layout(maxLat, deltaLat)| && i < |lats|
    ensures Conditions(lats, glats, dglats, maxLat, deltaLat)[j][i] == Matches(Latbin.Layout(maxLat, deltaLat)[j], lats[i], glats[i], dglats[i])
  {
  }

  /** The `latbin` entry of a sample is `np.select`'s pick over the bins it meets. */
  lemma LabelAt(lats: seq<real>, glats: seq<real>, dglats: seq<real>, maxLat: nat, deltaLat: int, i: nat)
    requires |lats| == |glats| == |dglats| && deltaLat > 0 && i < |lats|
    ensures var layout := Latbin.Layout(maxLat, deltaLat);
      var conditions := Conditions(lats, glats, dglats, maxLat, deltaLat);
      Labels(lats, glats, dglats, maxLat, deltaLat)[i] == Select(conditions, Categories(maxLat, deltaLat), i)
      && forall j :: 0 <= j < |layout| ==> conditions[j][i] == Matches(layout[j], lats[i], glats[i], dglats[i])
  {
    var layout := Latbin.Layout(maxLat, deltaLat);
    forall j | 0 <= j < |layout|
      ensures Conditions(lats, glats, dglats, maxLat, deltaLat)[j][i] == Matches(layout[j], lats[i], glats[i], dglats[i])
    {
      ConditionAt(lats, glats, dglats, maxLat, deltaLat, j, i);
    }
  }

  /** A sample is labelled exactly when it meets some bin's condition, and then
      with the category of that bin, which is the only bin it meets. */
  lemma LabelIsOnlyMatch(lats: seq<real>, glats: seq<real>, dglats: seq<real>, maxLat: nat, deltaLat: int, i: nat)
    requires |lats| == |glats| == |dglats| && deltaLat > 0 && i < |lats|
    ensures var layout := Latbin.Layout(maxLat, deltaLat);
      Labels(lats, glats, dglats, maxLat, deltaLat)[i].Some? <==> exists j :: 0 <= j < |layout| && Matches(layout[j], lats[i], glats[i], dglats[i])
    ensures var layout := Latbin.Layout(maxLat, deltaLat);
      forall j :: 0 <= j < |layout| && Matches(layout[j], lats[i], glats[i], dglats[i]) ==>
        Labels(lats, glats, dglats, maxLat, deltaLat)[i] == Some(Categories(maxLat, deltaLat)[j])
  {
    var layout := Latbin.Layout(maxLat, deltaLat);
    LabelAt(lats, glats, dglats, maxLat, deltaLat, i);
    forall j | 0 <= j < |layout| && Matches(layout[j], lats[i], glats[i], dglats[i])
      ensures Labels(lats, glats, dglats, maxLat, deltaLat)[i] == Some(Categories(maxLat, deltaLat)[j])
    {
      PickIsOnlyMatch(lats, glats, dglats, maxLat, deltaLat, i, j);
    }
  }

  /** With a single condition holding, `np.select` picks its choice. */
  lemma {:induction false} SelectOnly(conditions: seq<seq<bool>>, choices: seq<string>, i: nat, j: nat)
    requires |choices| == |conditions| && forall k :: 0 <= k < |conditions| ==> i < |conditions[k]|
    requires j < |conditions| && conditions[j][i]
    requires forall k :: 0 <= k < |conditions| && k != j ==> !conditions[k][i]
    ensures Select(conditions, choices, i) == Some(choices[j])
    decreases |conditions|
  {
    if j > 0 {
      assert forall k :: 0 <= k < |conditions| - 1 ==> conditions[1..][k] == conditions[k + 1];
      SelectOnly(conditions[1..], choices[1..], i, j - 1);
    }
  }

  lemma PickIsOnlyMatch(lats: seq<real>, glats: seq<real>, dglats: seq<real>, maxLat: nat, deltaLat: int, i: nat, j: nat)
    requires |lats| == |glats| == |dglats| && deltaLat > 0 && i < |lats|
    requires j < |Latbin.Layout(maxLat, deltaLat)| && Matches(Latbin.Layout(maxLat, deltaLat)[j], lats[i], glats[i], dglats[i])
    ensures Labels(lats, glats, dglats, maxLat, deltaLat)[i] == Some(Categories(maxLat, deltaLat)[j])
  {
    var layout := Latbin.Layout(maxLat, deltaLat);
    var conditions := Conditions(lats, glats, dglats, maxLat, deltaLat);
    LabelAt(lats, glats, dglats, maxLat, deltaLat, i);
    forall k | 0 <= k < |layout| && k != j
      ensures !conditions[k][i]
    {
      if k < j {
        BinsDisjoint(maxLat, deltaLat, k, j, lats[i], glats[i], dglats[i]);
      } else {
        BinsDisjoint(maxLat, deltaLat, j, k, lats[i], glats[i], dglats[i]);
      }
    }
    SelectOnly(conditions, Categories(maxLat, deltaLat), i, j);
  }

  /** For max_lat a multiple of delta_lat the northern bins lie in [0, max) and
      the southern ones in [-max, 0). */
  lemma BinRange(q: nat, b: nat, maxLat: nat, deltaLat: int)
    requires q < 4 && deltaLat > 0 && maxLat % deltaLat == 0 && b < Latbin.BinsPerQuadrant(maxLat, deltaLat)
    ensures var bin := Latbin.BinOf(q, b, maxLat, deltaLat);
      (q < 2 ==> 0 <= Min(bin.start, bin.end) && Max(bin.start, bin.end) <= maxLat)
      && (q >= 2 ==> -(maxLat as int) <= Min(bin.start, bin.end) && Max(bin.start, bin.end) <= 0)
  {
    var m := Latbin.BinsPerQuadrant(maxLat, deltaLat);
    BinSpan(q, b, maxLat, deltaLat);
    ExactBins(maxLat, deltaLat);
    MulLeft(b + 1, m, deltaLat);
    MulSucc(b, deltaLat);
  }

  /** For max_lat a multiple of delta_lat every bin lies in [-max_lat, max_lat),
      on its hemisphere's side of the equator ([0, max) in the north, [-max, 0) in
      the south). */
  lemma MatchBounds(maxLat: nat, deltaLat: int, j: nat, lat: real, glat: real, dglat: real)
    requires deltaLat > 0 && maxLat % deltaLat == 0 && j < |Latbin.Layout(maxLat, deltaLat)|
    requires Matches(Latbin.Layout(maxLat, deltaLat)[j], lat, glat, dglat)
    ensures -(maxLat as real) <= lat < maxLat as real
    ensures Hemisphere(glat) == Some("N") ==> 0.0 <= lat
    ensures Hemisphere(glat) == Some("S") ==> lat < 0.0
  {
    var m := Latbin.BinsPerQuadrant(maxLat, deltaLat);
    var q := IndexQuadrant(j, m);
    var b := j - Latbin.QuadrantBase(q, m);
    LayoutIndex(maxLat, deltaLat, j);
    BinRange(q, b, maxLat, deltaLat);
    assert Latbin.BinOf(q, b, maxLat, deltaLat).hemi == Latbin.Quadrants[q].hemi;
    assert "N"[0] != "S"[0];
  }

  /** A latitude in [0, max) falls in the bin b with b * d <= y < (b + 1) * d. */
  lemma FloorBin(y: real, maxLat: nat, deltaLat: int) returns (b: nat)
    requires deltaLat > 0 && maxLat % deltaLat == 0 && 0.0 <= y < maxLat as real
    ensures b < Latbin.BinsPerQuadrant(maxLat, deltaLat)
    ensures (b * deltaLat) as real <= y < (b * deltaLat + deltaLat) as real
  {
    var k := y.Floor;
    assert 0 <= k < maxLat;
    b := k / deltaLat;
    ExactBins(maxLat, deltaLat);
    var m := Latbin.BinsPerQuadrant(maxLat, deltaLat);
    CeilDiv(k, deltaLat);
    MulSucc(m - 1, deltaLat);
    Latbin.MulCancelLt(b, m - 1, deltaLat);
  }

  /** A distance in (0, max] falls in the bin b with b * d < z <= (b + 1) * d. */
  lemma CeilBin(z: real, maxLat: nat, deltaLat: int) returns (b: nat)
    requires deltaLat > 0 && maxLat % deltaLat == 0 && 0.0 < z <= maxLat as real
    ensures b < Latbin.BinsPerQuadrant(maxLat, deltaLat)
    ensures (b * deltaLat) as real < z <= (b * deltaLat + deltaLat) as real
  {
    var c := -((-z).Floor);
    assert (c - 1) as real < z <= c as real;
    assert 1 <= c <= maxLat;
    var k := c - 1;
    b := k / deltaLat;
    ExactBins(maxLat, deltaLat);
    var m := Latbin.BinsPerQuadrant(maxLat, deltaLat);
    CeilDiv(k, deltaLat);
    MulSucc(m - 1, deltaLat);
    Latbin.MulCancelLt(b, m - 1, deltaLat);
  }

  /** For max_lat a multiple of delta_lat the quadrants hold max_lat / delta_lat
      bins, which span max_lat exactly. */
  lemma ExactBins(maxLat: nat, deltaLat: int)
    requires deltaLat > 0 && maxLat % deltaLat == 0
    ensures Latbin.BinsPerQuadrant(maxLat, deltaLat) * deltaLat == maxLat
  {
    Latbin.ExactQuadrantBins(maxLat, deltaLat);
  }

  /** A sample whose hemisphere, direction and latitude fit bin b of quadrant q
      meets the condition of that bin's layout position. */
  lemma MatchesAt(q: nat, b: nat, maxLat: nat, deltaLat: int, lat: real, glat: real, dglat: real) returns (j: nat)
    requires q < 4 && deltaLat > 0 && b < Latbin.BinsPerQuadrant(maxLat, deltaLat)
    requires Hemisphere(glat) == Some(Latbin.Quadrants[q].hemi) && Direction(dglat) == Latbin.Quadrants[q].ascDesc
    requires var bin := Latbin.BinOf(q, b, maxLat, deltaLat);
      Min(bin.start, bin.end) as real <= lat < Max(bin.start, bin.end) as real
    ensures j < |Latbin.Layout(maxLat, deltaLat)| && Matches(Latbin.Layout(maxLat, deltaLat)[j], lat, glat, dglat)
  {
    Latbin.LayoutAt(maxLat, deltaLat, q, b);
    j := Latbin.QuadrantBase(q, Latbin.BinsPerQuadrant(maxLat, deltaLat)) + b;
  }

  /** For max_lat a multiple of delta_lat, a sample off the equator, within
      max_lat and inside the hemisphere cut meets a bin of its quadrant. */
  lemma CoveringBin(maxLat: nat, deltaLat: int, glat: real, dglat: real) returns (j: nat)
    requires deltaLat > 0 && maxLat % deltaLat == 0
    requires -(maxLat as real) <= glat < maxLat as real && glat != 0.0 && -91.0 < glat <= 91.0
    ensures j < |Latbin.Layout(maxLat, deltaLat)| && Matches(Latbin.Layout(maxLat, deltaLat)[j], glat, glat, dglat)
  {
    if glat > 0.0 && dglat > 0.0 {
      var b := FloorBin(glat, maxLat, deltaLat);
      BinSpan(0, b, maxLat, deltaLat);
      j := MatchesAt(0, b, maxLat, deltaLat, glat, glat, dglat);
    } else if glat > 0.0 {
      var b := CeilBin(maxLat as real - glat, maxLat, deltaLat);
      BinSpan(1, b, maxLat, deltaLat);
      j := MatchesAt(1, b, maxLat, deltaLat, glat, glat, dglat);
    } else if dglat <= 0.0 {
      var b := CeilBin(-glat, maxLat, deltaLat);
      BinSpan(2, b, maxLat, deltaLat);
      j := MatchesAt(2, b, maxLat, deltaLat, glat, glat, dglat);
    } else {
      var b := FloorBin(glat + maxLat as real, maxLat, deltaLat);
      BinSpan(3, b, maxLat, deltaLat);
      j := MatchesAt(3, b, maxLat, deltaLat, glat, glat, dglat);
    }
  }

  /** With latitudes binned by glats itself and max_lat a multiple of
      delta_lat, a sample gets a label exactly when it lies within max_lat of
      the equator, off the equator, and inside the hemisphere cut. */
  lemma LabelledIff(glats: seq<real>, dglats: seq<real>, maxLat: nat, deltaLat: int, i: nat)
    requires |glats| == |dglats| && deltaLat > 0 && maxLat % deltaLat == 0 && i < |glats|
    ensures Labels(glats, glats, dglats, maxLat, deltaLat)[i].Some? <==>
      (-(maxLat as real) <= glats[i] < maxLat as real && glats[i] != 0.0 && -91.0 < glats[i] <= 91.0)
  {
    var layout := Latbin.Layout(maxLat, deltaLat);
    LabelIsOnlyMatch(glats, glats, dglats, maxLat, deltaLat, i);
    if Labels(glats, glats, dglats, maxLat, deltaLat)[i].Some? {
      var j :| 0 <= j < |layout| && Matches(layout[j], glats[i], glats[i], dglats[i]);
      MatchBounds(maxLat, deltaLat, j, glats[i], glats[i], dglats[i]);
    } else if -(maxLat as real) <= glats[i] < maxLat as real && glats[i] != 0.0 && -91.0 < glats[i] <= 91.0 {
      var j := CoveringBin(maxLat, deltaLat, glats[i], dglats[i]);
    }
  }

  /** When max_lat is no multiple of delta_lat the last bins reach past it and
      across the equator: with max 7 and delta 5 the south-ascending edges are
      -7, -2, 3, and a sample on the equator gets the label `dawn_0.5`. */
  lemma EquatorLabelledWhenUneven()
    ensures Labels([0.0], [0.0], [1.0], 7, 5)[0] == Some(Categories(7, 5)[7])
    ensures Categories(7, 5)[7] == LabelText("dawn", 1)
  {
    assert Latbin.BinsPerQuadrant(7, 5) == 2;
    Latbin.LayoutAt(7, 5, 3, 1);
    Latbin.BinEdges(3, 1, 7, 5);
    var bin := Latbin.Layout(7, 5)[7];
    assert bin == Latbin.Bin("S", "asc", -2, 3);
    assert Matches(bin, 0.0, 0.0, 1.0);
    LabelIsOnlyMatch([0.0], [0.0], [1.0], 7, 5, 0);
    CategoryAt(7, 5, 7);
  }

  /** Which samples belong to the group of orbit o and category c. */
  function Members(orbitNumber: seq<int>, latbin: seq<Option<string>>, o: int, c: string): (m: seq<bool>)
    requires |orbitNumber| == |latbin|
    ensures |m| == |latbin|
  {
    seq(|latbin|, i requires 0 <= i < |latbin| => orbitNumber[i] == o && latbin[i] == Some(c))
  }

  /** The mean of a numeric column over a group: NaN for an empty group. */
  function ColumnMean(col: seq<real>, members: seq<bool>): (m: Option<real>)
    requires |col| == |members|
    ensures m.None? <==> forall i :: 0 <= i < |col| ==> !members[i]
  {
    var vals := seq(|col|, i requires 0 <= i < |col| => if members[i] then Some(col[i]) else None);
    assert forall i :: 0 <= i < |col| ==> (vals[i].None? <==> !members[i]);
    NanMean(vals)
  }

  function CountTrue(members: seq<bool>): (n: nat)
    ensures n == 0 <==> forall i :: 0 <= i < |members| ==> !members[i]
  {
    if members == [] then 0 else CountTrue(members[..|members| - 1]) + (if members[|members| - 1] then 1 else 0)
  }

  function SumOver(times: seq<int>, members: seq<bool>): int
    requires |times| == |members|
  {
    if members == [] then 0
    else SumOver(times[..|times| - 1], members[..|members| - 1]) + (if members[|members| - 1] then times[|times| - 1] else 0)
  }

  /** The sum over a group lies between its count times any lower bound and its
      count times any upper bound of the members. */
  lemma {:induction false} SumOverBounds(times: seq<int>, members: seq<bool>, lo: int, hi: int)
    requires |times| == |members|
    requires forall i :: 0 <= i < |times| && members[i] ==> lo <= times[i] <= hi
    ensures CountTrue(members) * lo <= SumOver(times, members) <= CountTrue(members) * hi
  {
    if members != [] {
      var n := |members| - 1;
      assert forall i :: 0 <= i < n ==> times[..n][i] == times[i] && members[..n][i] == members[i];
      SumOverBounds(times[..n], members[..n], lo, hi);
      var c := CountTrue(members[..n]);
      MulSucc(c, lo);
      MulSucc(c, hi);
    }
  }

  /** The earliest member of a non-empty group. */
  function ArgMin(times: seq<int>, members: seq<bool>): (k: nat)
    requires |times| == |members| && exists i :: 0 <= i < |members| && members[i]
    ensures k < |times| && members[k]
    ensures forall i :: 0 <= i < |times| && members[i] ==> times[k] <= times[i]
  {
    var n := |members| - 1;
    if !exists i :: 0 <= i < n && members[i] then
      assert members[n];
      n
    else
      var k := ArgMin(times[..n], members[..n]);
      if members[n] && times[n] < times[k] then n else k
  }

  /** The latest member of a non-empty group. */
  function ArgMax(times: seq<int>, members: seq<bool>): (k: nat)
    requires |times| == |members| && exists i :: 0 <= i < |members| && members[i]
    ensures k < |times| && members[k]
    ensures forall i :: 0 <= i < |times| && members[i] ==> times[i] <= times[k]
  {
    var n := |members| - 1;
    if !exists i :: 0 <= i < n && members[i] then
      assert members[n];
      n
    else
      var k := ArgMax(times[..n], members[..n]);
      if members[n] && times[n] > times[k] then n else k
  }

  lemma DivBetween(s: int, n: int, lo: int, hi: int)
    requires n > 0 && n * lo <= s <= n * hi
    ensures lo <= s / n <= hi
  {
    CeilDiv(s - n * lo, n);
    assert s == (s / n) * n + s % n;
    Latbin.MulCancelLt(lo, s / n, n);
    Latbin.MulCancelLt(s / n, hi, n);
  }

  /** The mean time of a group (integer nanoseconds, rounded down): none for an
      empty group, else between the group's earliest and latest time. */
  function TimeMean(times: seq<int>, members: seq<bool>): (m: Option<int>)
    requires |times| == |members|
    ensures m.None? <==> forall i :: 0 <= i < |members| ==> !members[i]
    ensures m.Some? ==> times[ArgMin(times, members)] <= m.value <= times[ArgMax(times, members)]
  {
    var n := CountTrue(members);
    if n == 0 then None
    else
      var lo, hi := times[ArgMin(times, members)], times[ArgMax(times, members)];
      SumOverBounds(times, members, lo, hi);
      DivBetween(SumOver(times, members), n, lo, hi);
      Some(SumOver(times, members) / n)
  }

  /** One row of the binned frame: the group keys and the mean of every numeric column. */
  datatype Group = Group(orbit: int, category: string, glats: Option<real>, dglats: Option<real>,
                         data: seq<Option<real>>, time: Option<int>)

  function GroupOf(members: seq<bool>, o: int, c: string, glats: seq<real>, dglats: seq<real>,
                   data: seq<seq<real>>, times: seq<int>): Group
    requires |glats| == |members| && |dglats| == |members| && |times| == |members|
    requires forall k :: 0 <= k < |data| ==> |data[k]| == |members|
  {
    Group(o, c, ColumnMean(glats, members), ColumnMean(dglats, members),
          seq(|data|, k requires 0 <= k < |data| => ColumnMean(data[k], members)), TimeMean(times, members))
  }

  /** `groupby(['orbit_number', 'latbin']).mean()` with every category kept:
      one row per orbit (increasing) and category (in category order). */
  function GroupMeans(orbitNumber: seq<int>, latbin: seq<Option<string>>, cats: seq<string>, glats: seq<real>,
                      dglats: seq<real>, data: seq<seq<real>>, times: seq<int>): (g: seq<seq<Group>>)
    requires |latbin| == |orbitNumber| == |glats| == |dglats| == |times|
    requires forall k :: 0 <= k < |data| ==> |data[k]| == |orbitNumber|
    ensures |g| == |Unique(orbitNumber)| && forall o :: 0 <= o < |g| ==> |g[o]| == |cats|
  {
    var orbits := Unique(orbitNumber);
    seq(|orbits|, o requires 0 <= o < |orbits| =>
      seq(|cats|, c requires 0 <= c < |cats| =>
        GroupOf(Members(orbitNumber, latbin, orbits[o], cats[c]), orbits[o], cats[c], glats, dglats, data, times)))
  }

  /** Every orbit and every category has its row, in order; a row is empty (all
      means missing) exactly when no sample of that orbit carries that label. */
  lemma GroupRows(orbitNumber: seq<int>, latbin: seq<Option<string>>, cats: seq<string>, glats: seq<real>,
                  dglats: seq<real>, data: seq<seq<real>>, times: seq<int>, o: nat, c: nat)
    requires |latbin| == |orbitNumber| == |glats| == |dglats| == |times|
    requires forall k :: 0 <= k < |data| ==> |data[k]| == |orbitNumber|
    requires o < |Unique(orbitNumber)| && c < |cats|
    ensures var g := GroupMeans(orbitNumber, latbin, cats, glats, dglats, data, times)[o][c];
      g.orbit == Unique(orbitNumber)[o] && g.orbit in orbitNumber && g.category == cats[c]
      && (g.time.None? <==> forall i :: 0 <= i < |latbin| ==> !(orbitNumber[i] == g.orbit && latbin[i] == Some(cats[c])))
      && (g.glats.None? <==> g.time.None?)
      && (o > 0 ==> GroupMeans(orbitNumber, latbin, cats, glats, dglats, data, times)[o - 1][c].orbit < g.orbit)
  {
    var orbits := Unique(orbitNumber);
    var members := Members(orbitNumber, latbin, orbits[o], cats[c]);
    assert orbits[o] in orbits;
    assert forall i :: 0 <= i < |latbin| ==> (members[i] <==> orbitNumber[i] == orbits[o] && latbin[i] == Some(cats[c]));
  }

  /** A group with one sample has that sample's values as its means. */
  lemma SingleSampleGroup(members: seq<bool>, o: int, c: string, glats: seq<real>, dglats: seq<real>,
                          data: seq<seq<real>>, times: seq<int>, i: nat)
    requires |glats| == |members| && |dglats| == |members| && |times| == |members|
    requires forall k :: 0 <= k < |data| ==> |data[k]| == |members|
    requires i < |members| && members[i] && forall k :: 0 <= k < |members| && k != i ==> !members[k]
    ensures var g := GroupOf(members, o, c, glats, dglats, data, times);
      g.glats == Some(glats[i]) && g.dglats == Some(dglats[i]) && g.time == Some(times[i])
      && |g.data| == |data| && forall k :: 0 <= k < |data| ==> g.data[k] == Some(data[k][i])
  {
    ColumnMeanSingle(glats, members, i);
    ColumnMeanSingle(dglats, members, i);
    forall k | 0 <= k < |data|
      ensures ColumnMean(data[k], members) == Some(data[k][i])
    {
      ColumnMeanSingle(data[k], members, i);
    }
    assert ArgMin(times, members) == i && ArgMax(times, members) == i;
  }

  lemma ColumnMeanSingle(col: seq<real>, members: seq<bool>, i: nat)
    requires |col| == |members| && i < |members| && members[i]
    requires forall k :: 0 <= k < |members| && k != i ==> !members[k]
    ensures ColumnMean(col, members) == Some(col[i])
  {
    var vals := seq(|col|, k requires 0 <= k < |col| => if members[k] then Some(col[k]) else None);
    NanMeanSingle(vals, i);
  }

  /** A group's mean of a column depends only on the values of its members. */
  lemma MeanIgnoresNonMembers(col: seq<real>, col': seq<real>, members: seq<bool>)
    requires |col| == |members| && |col'| == |members|
    requires forall i :: 0 <= i < |members| && members[i] ==> col[i] == col'[i]
    ensures ColumnMean(col, members) == ColumnMean(col', members)
  {
    var a := seq(|col|, i requires 0 <= i < |col| => if members[i] then Some(col[i]) else None);
    var b := seq(|col'|, i requires 0 <= i < |col'| => if members[i] then Some(col'[i]) else None);
    assert a == b;
  }

  /** The `hemi` column. */
  function HemiColumn(glats: seq<real>): (h: seq<Option<string>>)
    ensures |h| == |glats|
  {
    seq(|glats|, i requires 0 <= i < |glats| => Hemisphere(glats[i]))
  }

  /** The `asc_desc` column. */
  function DirColumn(dglats: seq<real>): (d: seq<string>)
    ensures |d| == |dglats|
  {
    seq(|dglats|, i requires 0 <= i < |dglats| => Direction(dglats[i]))
  }

  /** The inner loop over the edge pairs of quadrant q: appends each bin's
      category and condition after those of the earlier quadrants. */
  method AppendQuadrant(q: nat, edges: seq<int>, lats: seq<real>, glats: seq<real>, dglats: seq<real>,
                        hemiCol: seq<Option<string>>, dirCol: seq<string>, maxLat: nat, deltaLat: int,
                        categories0: seq<string>, conditions0: seq<seq<bool>>)
    returns (categories: seq<string>, conditions: seq<seq<bool>>)
    requires q < 4 && deltaLat > 0 && |lats| == |glats| == |dglats|
    requires edges == Latbin.QuadrantEdges(q, maxLat, deltaLat)
    requires hemiCol == HemiColumn(glats) && dirCol == DirColumn(dglats)
    requires var base := Latbin.QuadrantBase(q, Latbin.BinsPerQuadrant(maxLat, deltaLat));
      categories0 == Categories(maxLat, deltaLat)[..base] && conditions0 == Conditions(lats, glats, dglats, maxLat, deltaLat)[..base]
    ensures var top := Latbin.QuadrantBase(q, Latbin.BinsPerQuadrant(maxLat, deltaLat)) + Latbin.BinsPerQuadrant(maxLat, deltaLat);
      top <= |Latbin.Layout(maxLat, deltaLat)|
      && categories == Categories(maxLat, deltaLat)[..top] && conditions == Conditions(lats, glats, dglats, maxLat, deltaLat)[..top]
  {
    var m := Latbin.BinsPerQuadrant(maxLat, deltaLat);
    var base := Latbin.QuadrantBase(q, m);
    ghost var cats := Categories(maxLat, deltaLat);
    ghost var conds := Conditions(lats, glats, dglats, maxLat, deltaLat);
    var hemi, ascDesc := Latbin.Quadrants[q].hemi, Latbin.Quadrants[q].ascDesc;
    categories, conditions := categories0, conditions0;
    for b := 0 to |edges| - 1
      invariant base + b <= |cats|
      invariant categories == cats[..base + b] && conditions == conds[..base + b]
    {
      Latbin.LayoutAt(maxLat, deltaLat, q, b);
      LabelOfBin(q, b, maxLat, deltaLat);
      CategoryAt(maxLat, deltaLat, base + b);
      var lat1, lat2 := edges[b], edges[b + 1];
      var name := LatbinLabel(lat1, lat2, hemi, ascDesc);
      var slat, elat := Min(lat1, lat2), Max(lat1, lat2);
      var mask := ColumnMask(slat, elat, hemi, ascDesc, lats, hemiCol, dirCol);
      ColumnMaskIsMask(Latbin.BinOf(q, b, maxLat, deltaLat), lats, glats, dglats, hemiCol, dirCol);
      PrefixSnoc(cats, base + b);
      PrefixSnoc(conds, base + b);
      categories := categories + [name.value];
      conditions := conditions + [mask];
    }
  }

  lemma PrefixSnoc<T>(s: seq<T>, k: nat)
    requires k < |s|
    ensures s[..k + 1] == s[..k] + [s[k]]
  {
  }

  /** `(df[latvar] >= slat) & (df[latvar] < elat) & (df['hemi'] == hemi) & (df['asc_desc'] == asc_desc)`. */
  function ColumnMask(slat: int, elat: int, hemi: string, ascDesc: string, lats: seq<real>,
                      hemiCol: seq<Option<string>>, dirCol: seq<string>): (mask: seq<bool>)
    requires |hemiCol| == |lats| && |dirCol| == |lats|
  {
    seq(|lats|, i requires 0 <= i < |lats| =>
      slat as real <= lats[i] && lats[i] < elat as real && hemiCol[i] == Some(hemi) && dirCol[i] == ascDesc)
  }

  /** On the `hemi` and `asc_desc` columns the column mask is the bin's condition. */
  lemma ColumnMaskIsMask(bin: Latbin.Bin, lats: seq<real>, glats: seq<real>, dglats: seq<real>,
                         hemiCol: seq<Option<string>>, dirCol: seq<string>)
    requires |lats| == |glats| == |dglats| && hemiCol == HemiColumn(glats) && dirCol == DirColumn(dglats)
    ensures ColumnMask(Min(bin.start, bin.end), Max(bin.start, bin.end), bin.hemi, bin.ascDesc, lats, hemiCol, dirCol)
      == Mask(bin, lats, glats, dglats)
  {
  }

  /** The two nested loops of `bin_by_latitude`: the categories and the
      conditions, bin by bin in layout order. */
  method BuildBins(e: LatbinEdges, lats: seq<real>, glats: seq<real>, dglats: seq<real>,
                   hemiCol: seq<Option<string>>, dirCol: seq<string>, maxLat: nat, deltaLat: int)
    returns (categories: seq<string>, conditions: seq<seq<bool>>)
    requires deltaLat > 0 && |lats| == |glats| == |dglats| && e == DefineLatbins(deltaLat, maxLat)
    requires hemiCol == HemiColumn(glats) && dirCol == DirColumn(dglats)
    ensures categories == Categories(maxLat, deltaLat)
    ensures conditions == Conditions(lats, glats, dglats, maxLat, deltaLat)
  {
    var m := Latbin.BinsPerQuadrant(maxLat, deltaLat);
    ghost var cats := Categories(maxLat, deltaLat);
    ghost var conds := Conditions(lats, glats, dglats, maxLat, deltaLat);
    categories, conditions := [], [];
    for q := 0 to 4
      invariant Latbin.QuadrantBase(q, m) <= |cats|
      invariant categories == cats[..Latbin.QuadrantBase(q, m)] && conditions == conds[..Latbin.QuadrantBase(q, m)]
    {
      categories, conditions := AppendQuadrant(q, EdgesOf(e, q), lats, glats, dglats, hemiCol, dirCol, maxLat, deltaLat,
                                               categories, conditions);
    }
    assert cats[..4 * m] == cats && conds[..4 * m] == conds;
  }

  /** The frame `bin_by_latitude` receives and extends: a time index, the orbit
      numbers, latitude and its derivative, the other numeric columns (each as
      long as the index), and the columns the method adds. */
  class SsjFrame {
    var index: seq<int>
    var orbitNumber: seq<int>
    var glats: seq<real>
    var dglats: seq<real>
    var data: seq<seq<real>>
    var hemi: seq<Option<string>>
    var ascDesc: seq<string>
    var latbin: seq<Option<string>>
    var time: seq<int>

    predicate Valid()
      reads this
    {
      |orbitNumber| == |index| && |glats| == |index| && |dglats| == |index|
      && forall k :: 0 <= k < |data| ==> |data[k]| == |index|
    }

    constructor(index: seq<int>, orbitNumber: seq<int>, glats: seq<real>, dglats: seq<real>, data: seq<seq<real>>)
      requires |orbitNumber| == |index| && |glats| == |index| && |dglats| == |index|
      requires forall k :: 0 <= k < |data| ==> |data[k]| == |index|
      ensures Valid()
      ensures this.index == index && this.orbitNumber == orbitNumber && this.glats == glats
      ensures this.dglats == dglats && this.data == data
      ensures hemi == [] && ascDesc == [] && latbin == [] && time == []
    {
      this.index, this.orbitNumber, this.glats, this.dglats, this.data := index, orbitNumber, glats, dglats, data;
      hemi, ascDesc, latbin, time := [], [], [], [];
    }
  }

  /** The quadrant loops visit no bin exactly when `max_lat` is 0: each edge
      list is then the single edge 0. */
  lemma NoBinsIff(maxLat: nat, deltaLat: int)
    requires deltaLat > 0
    ensures |Categories(maxLat, deltaLat)| == 0 <==> maxLat == 0
  {
    var n := maxLat + 2 * deltaLat - 1;
    if maxLat == 0 {
      assert n / deltaLat == 1;
    } else {
      assert 2 * deltaLat <= n;
      assert n == deltaLat * (n / deltaLat) + n % deltaLat;
    }
  }


  /** `bin_by_latitude`: adds the `hemi` and `asc_desc` columns to the frame;
      with no bins `np.select` gets an empty condition list and raises
      ValueError; otherwise adds the `latbin` and `time` columns and returns the
      mean of every (orbit, category) group. `lats` is the column named by
      `latvar`. */
  method BinByLatitude(df: SsjFrame, lats: seq<real>, deltaLat: int, maxLat: nat) returns (binned: Result<seq<seq<Group>>>)
    requires df.Valid() && |lats| == |df.index| && deltaLat > 0
    modifies df
    ensures df.Valid()
    ensures df.index == old(df.index) && df.orbitNumber == old(df.orbitNumber)
    ensures df.glats == old(df.glats) && df.dglats == old(df.dglats) && df.data == old(df.data)
    ensures df.hemi == HemiColumn(df.glats) && df.ascDesc == DirColumn(df.dglats)
    ensures binned.Failure? <==> maxLat == 0
    ensures binned.Failure? ==> binned.error == ValueError && df.latbin == old(df.latbin) && df.time == old(df.time)
    ensures binned.Success? ==> df.latbin == Labels(lats, df.glats, df.dglats, maxLat, deltaLat) && df.time == df.index
    ensures binned.Success? ==>
      binned.value == GroupMeans(df.orbitNumber, df.latbin, Categories(maxLat, deltaLat), df.glats, df.dglats, df.data, df.time)
  {
    var latBinEdges := DefineLatbins(deltaLat, maxLat);
    df.hemi := HemiColumn(df.glats);
    df.ascDesc := DirColumn(df.dglats);
    var categories, conditions := BuildBins(latBinEdges, lats, df.glats, df.dglats, df.hemi, df.ascDesc, maxLat, deltaLat);
    NoBinsIff(maxLat, deltaLat);
    if |conditions| == 0 {
      return Failure(ValueError);
    }
    df.latbin := seq(|lats|, i requires 0 <= i < |lats| => Select(conditions, categories, i));
    df.time := df.index;
    binned := Success(GroupMeans(df.orbitNumber, df.latbin, categories, df.glats, df.dglats, df.data, df.time));
  }

}
