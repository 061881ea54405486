/** File naming and the conversions between latitude-binned arrays and
    labelled frames (ssjlatbin/io.py). The filesystem search is replaced by the
    list of files below the CDF root directory, given as input. */
module Io {
  import opened Wrappers
  import opened Text
  import opened Sequences
  import Latbin
  import LatbinPandas

  /** The fields of the CDF file name, in order. */
  function FileNameFields(dmsp: nat, year: nat, month: nat, day: nat, version: string): seq<string> {
    ["dmsp-f" + Pad2(dmsp), "ssj", "precipitating" + "-electrons" + "-ions", NatToString(year) + Pad2(month) + Pad2(day),
     "v" + version + ".cdf"]
  }

  /** The CDF file name,
      `dmsp-f{NN}_ssj_precipitating-electrons-ions_{YYYY}{MM}{DD}_v{version}.cdf`:
      its fields with an underscore between neighbours. */
  function SsjCdfFileName(dmsp: nat, year: nat, month: nat, day: nat, version: string): string {
    Join(FileNameFields(dmsp, year, month, day, version), '_')
  }

  lemma DigitsHaveNoSeparator(s: string)
    requires AllDigits(s)
    ensures '_' !in s
  {
    assert forall i :: 0 <= i < |s| ==> IsDigit(s[i]);
  }

  /** Splitting joined pieces gives them back, when all but the last are free of
      the separator; the last may split further. */
  lemma {:induction false} SplitJoin(pieces: seq<string>, sep: char)
    requires |pieces| >= 1
    requires forall i :: 0 <= i < |pieces| - 1 ==> sep !in pieces[i]
    ensures Split(Join(pieces, sep), sep) == pieces[..|pieces| - 1] + Split(pieces[|pieces| - 1], sep)
  {
    if |pieces| > 1 {
      var rest, last := pieces[1..], pieces[|pieces| - 1];
      assert rest[|rest| - 1] == last;
      assert forall i :: 0 <= i < |rest| - 1 ==> rest[i] == pieces[i + 1];
      SplitJoin(rest, sep);
      assert Join(pieces, sep) == pieces[0] + [sep] + Join(rest, sep);
      SplitCons(pieces[0], Join(rest, sep), sep);
      ConsInit(pieces);
      ConcatAssoc([pieces[0]], rest[..|rest| - 1], Split(last, sep));
    }
  }

  /** The pieces of a file name between its underscores: the first four fields,
      then whatever the version field splits into. */
  lemma FileNamePieces(dmsp: nat, year: nat, month: nat, day: nat, version: string)
    ensures var fields := FileNameFields(dmsp, year, month, day, version);
      Split(SsjCdfFileName(dmsp, year, month, day, version), '_') == fields[..4] + Split(fields[4], '_')
  {
    var fields := FileNameFields(dmsp, year, month, day, version);
    DigitsHaveNoSeparator(Pad2(dmsp));
    DigitsHaveNoSeparator(fields[3]);
    assert '_' !in "dmsp-f" && '_' !in "ssj";
    assert '_' !in "precipitating" && '_' !in "-electrons" && '_' !in "-ions";
    SplitJoin(fields, '_');
  }

  /** Equal concatenations with equally long first parts have equal parts. */
  lemma ConcatParts(a: string, b: string, c: string, d: string)
    requires a + b == c + d && |a| == |c|
    ensures a == c && b == d
  {
    assert a == (a + b)[..|a|] && c == (c + d)[..|c|];
    assert b == (a + b)[|a|..] && d == (c + d)[|c|..];
  }

  /** A date written as year digits then two-digit month and day determines the date. */
  lemma DateDigitsInjective(y1: nat, m1: nat, d1: nat, y2: nat, m2: nat, d2: nat)
    requires m1 < 100 && d1 < 100 && m2 < 100 && d2 < 100
    requires NatToString(y1) + Pad2(m1) + Pad2(d1) == NatToString(y2) + Pad2(m2) + Pad2(d2)
    ensures y1 == y2 && m1 == m2 && d1 == d2
  {
    ConcatParts(NatToString(y1) + Pad2(m1), Pad2(d1), NatToString(y2) + Pad2(m2), Pad2(d2));
    ConcatParts(NatToString(y1), Pad2(m1), NatToString(y2), Pad2(m2));
    NatToStringInjective(y1, y2);
  }

  /** Different satellites, dates or versions give different file names (for
      calendar months and days, which have at most two digits). */
  lemma FileNameInjective(dmsp1: nat, y1: nat, m1: nat, d1: nat, v1: string,
                          dmsp2: nat, y2: nat, m2: nat, d2: nat, v2: string)
    requires m1 < 100 && d1 < 100 && m2 < 100 && d2 < 100
    requires SsjCdfFileName(dmsp1, y1, m1, d1, v1) == SsjCdfFileName(dmsp2, y2, m2, d2, v2)
    ensures dmsp1 == dmsp2 && y1 == y2 && m1 == m2 && d1 == d2 && v1 == v2
  {
    var f1, f2 := FileNameFields(dmsp1, y1, m1, d1, v1), FileNameFields(dmsp2, y2, m2, d2, v2);
    FileNamePieces(dmsp1, y1, m1, d1, v1);
    FileNamePieces(dmsp2, y2, m2, d2, v2);
    var p1, p2 := Split(SsjCdfFileName(dmsp1, y1, m1, d1, v1), '_'), Split(SsjCdfFileName(dmsp2, y2, m2, d2, v2), '_');
    assert p1[0] == f1[0] && p2[0] == f2[0] && p1[3] == f1[3] && p2[3] == f2[3];
    ConcatParts("dmsp-f", Pad2(dmsp1), "dmsp-f", Pad2(dmsp2));
    DateDigitsInjective(y1, m1, d1, y2, m2, d2);
    assert p1[4..] == Split(f1[4], '_') && p2[4..] == Split(f2[4], '_');
    SplitPieces(f1[4], '_');
    SplitPieces(f2[4], '_');
    assert f1[4] == Join(Split(f1[4], '_'), '_') == Join(Split(f2[4], '_'), '_') == f2[4];
    ConcatParts("v" + v1, ".cdf", "v" + v2, ".cdf");
    ConcatParts("v", v1, "v", v2);
  }

  /** The last component of a path. */
  function BaseName(path: string): string {
    var parts := Split(path, '/');
    parts[|parts| - 1]
  }

  /** The files below the root whose name is `fname`: what `glob(root + '/**/' + fname)` finds. */
  function Matching(files: seq<string>, fname: string): (m: seq<string>)
    ensures forall f :: f in m <==> f in files && BaseName(f) == fname
    ensures |m| <= |files|
  {
    if files == [] then []
    else
      var last := if BaseName(files[|files| - 1]) == fname then [files[|files| - 1]] else [];
      Matching(files[..|files| - 1], fname) + last
  }

  /** `ssjcdffn`: the one file with the expected name below `cdfdir`; none is an
      IOError and several a RuntimeError. */
  function SsjCdfFn(dmsp: nat, year: nat, month: nat, day: nat, version: string, cdfdir: string, files: seq<string>)
    : (r: Result<string>)
    ensures var m := Matching(files, SsjCdfFileName(dmsp, year, month, day, version));
      (r == Failure(IOError) <==> |m| == 0) && (r == Failure(RuntimeError) <==> |m| > 1)
      && (r.Success? <==> |m| == 1)
    ensures r.Success? ==> exists f :: (f in files && BaseName(f) == SsjCdfFileName(dmsp, year, month, day, version)
      && r.value == cdfdir + "/" + f)
  {
    var fname := SsjCdfFileName(dmsp, year, month, day, version);
    var fullpath := Matching(files, fname);
    if |fullpath| == 0 then Failure(IOError)
    else if |fullpath| > 1 then Failure(RuntimeError)
    else
      assert fullpath[0] in fullpath;
      Success(cdfdir + "/" + fullpath[0])
  }

  /** With one file of the expected name in a listing without repeats, the
      result is that file, whichever order the listing has. */
  lemma SsjCdfFnUnique(dmsp: nat, year: nat, month: nat, day: nat, version: string, cdfdir: string,
                       files: seq<string>, f: string)
    requires forall i, j :: 0 <= i < j < |files| ==> files[i] != files[j]
    requires f in files && BaseName(f) == SsjCdfFileName(dmsp, year, month, day, version)
    requires forall g :: g in files && BaseName(g) == BaseName(f) ==> g == f
    ensures SsjCdfFn(dmsp, year, month, day, version, cdfdir, files) == Success(cdfdir + "/" + f)
  {
    var m := Matching(files, BaseName(f));
    assert f in m;
    assert forall i :: 0 <= i < |m| ==> m[i] in m;
    AllEqualCount(m, f);
    OnceInListing(files, f);
    MatchingHasNoRepeats(files, BaseName(f), f);
  }

  lemma {:induction false} AllEqualCount(m: seq<string>, f: string)
    requires forall i :: 0 <= i < |m| ==> m[i] == f
    ensures multiset(m)[f] == |m|
  {
    if m != [] {
      assert m == m[..|m| - 1] + [m[|m| - 1]];
      AllEqualCount(m[..|m| - 1], f);
    }
  }

  lemma {:induction false} OnceInListing(files: seq<string>, f: string)
    requires forall i, j :: 0 <= i < j < |files| ==> files[i] != files[j]
    ensures multiset(files)[f] <= 1
  {
    if files != [] {
      var init := files[..|files| - 1];
      assert files == init + [files[|files| - 1]];
      OnceInListing(init, f);
      if files[|files| - 1] == f {
        assert f !in init;
      }
    }
  }

  /** Each matching file appears once unless the listing repeats it. */
  lemma {:induction false} MatchingHasNoRepeats(files: seq<string>, fname: string, f: string)
    requires multiset(files)[f] <= 1
    ensures multiset(Matching(files, fname))[f] <= 1
  {
    if files != [] {
      var init := files[..|files| - 1];
      assert files == init + [files[|files| - 1]];
      MatchingHasNoRepeats(init, fname, f);
    }
  }

  /** Rounding to the nearest integer, ties to the even neighbour, as Python's
      float formatting rounds. */
  function RoundHalfEven(x: real): (n: int)
    ensures n as real - x <= 0.5 && x - n as real <= 0.5
    ensures (n as real - x == 0.5 || x - n as real == 0.5) ==> n % 2 == 0
    ensures x >= 0.0 ==> n >= 0
  {
    var f := x.Floor;
    var frac := x - f as real;
    if frac < 0.5 then f
    else if frac > 0.5 then f + 1
    else if f % 2 == 0 then f
    else f + 1
  }

  /** An integer rounds to itself. */
  lemma RoundInteger(k: int)
    ensures RoundHalfEven(k as real) == k
  {
  }

  /** Any integer within half of x that is even on a tie is the rounding of x:
      RoundHalfEven is the unique nearest-even rounding. */
  lemma RoundHalfEvenUnique(x: real, k: int)
    requires k as real - x <= 0.5 && x - k as real <= 0.5
    requires (k as real - x == 0.5 || x - k as real == 0.5) ==> k % 2 == 0
    ensures RoundHalfEven(x) == k
  {
    var n := RoundHalfEven(x);
    assert (n - k) as real <= 1.0 && (k - n) as real <= 1.0;
  }

  /** `'{:.1f}'.format(x)`: the sign of x (kept when the digits round to zero),
      then |x| rounded to tenths with one decimal place. */
  function FormatLat(x: real): (s: string)
    ensures |s| >= 3
    ensures s[0] == '-' <==> x < 0.0
  {
    if x < 0.0 then "-" + UnsignedTenths(RoundHalfEven(-x * 10.0))
    else UnsignedTenths(RoundHalfEven(x * 10.0))
  }

  /** The value the one-decimal text of x holds. */
  function Rounded(x: real): real {
    if x < 0.0 then -(RoundHalfEven(-x * 10.0) as real / 10.0) else RoundHalfEven(x * 10.0) as real / 10.0
  }

  /** Parsing the text of a latitude recovers it to within half a tenth. */
  lemma ParseFormatLat(x: real)
    ensures ParseDecimal(FormatLat(x)) == Success(Rounded(x))
    ensures Rounded(x) - x <= 0.05 && x - Rounded(x) <= 0.05
  {
    if x < 0.0 {
      var n := RoundHalfEven(-x * 10.0);
      ParseUnsignedTenths(n);
      ParseNegative(UnsignedTenths(n));
    } else {
      var n := RoundHalfEven(x * 10.0);
      ParseUnsignedTenths(n);
      ParseUnsignedDigitFirst(UnsignedTenths(n));
    }
  }

  /** A value that is a whole number of tenths is written exactly. */
  lemma FormatLatTenths(t: int)
    ensures FormatLat(t as real / 10.0) == FormatTenths(t)
  {
    if t < 0 {
      assert -(t as real / 10.0) * 10.0 == (-t) as real;
      RoundInteger(-t);
    } else {
      assert (t as real / 10.0) * 10.0 == t as real;
      RoundInteger(t);
    }
  }

  lemma FormatLatHasNoSeparator(x: real)
    ensures '_' !in FormatLat(x)
  {
    var n := if x < 0.0 then RoundHalfEven(-x * 10.0) else RoundHalfEven(x * 10.0);
    DigitsHaveNoSeparator(NatToString(n / 10));
    assert IsDigit(DigitChar(n % 10));
    assert UnsignedTenths(n) == NatToString(n / 10) + "." + [DigitChar(n % 10)];
  }

  /** The sector a dawn/dusk flag names: 1 is dawn, -1 dusk, anything else a ValueError. */
  function FlagSector(flag: int): (r: Result<string>)
    ensures r.Success? <==> flag == 1 || flag == -1
    ensures r.Failure? ==> r.error == ValueError
    ensures r.Success? ==> '_' !in r.value
  {
    if flag == 1 then Success("dawn")
    else if flag == -1 then Success("dusk")
    else Failure(ValueError)
  }

  /** The flag a column-name prefix stands for: dawn is 1, dusk -1, anything
      else a ValueError. */
  function SectorFlag(sector: string): (r: Result<int>)
    ensures r.Failure? ==> r.error == ValueError
  {
    if sector == "dawn" then Success(1)
    else if sector == "dusk" then Success(-1)
    else Failure(ValueError)
  }

  /** The two are inverse to each other on their successes. */
  lemma SectorFlagInverse(flag: int, sector: string)
    ensures FlagSector(flag).Success? ==> SectorFlag(FlagSector(flag).value) == Success(flag)
    ensures SectorFlag(sector).Success? ==> FlagSector(SectorFlag(sector).value) == Success(sector)
  {
    assert "dawn" != "dusk" by {
      assert "dawn"[1] != "dusk"[1];
    }
  }

  /** The column label for one latitude bin: sector, underscore, latitude to one decimal. */
  function ColumnLabel(flag: int, lat: real): (r: Result<string>)
    ensures r.Success? <==> flag == 1 || flag == -1
    ensures r.Failure? ==> r.error == ValueError
  {
    var sector :- FlagSector(flag);
    Success(sector + "_" + FormatLat(lat))
  }

  /** A label splits back into its sector and its latitude text. */
  lemma ColumnLabelPieces(flag: int, lat: real)
    requires flag == 1 || flag == -1
    ensures Split(ColumnLabel(flag, lat).value, '_') == [FlagSector(flag).value, FormatLat(lat)]
  {
    FormatLatHasNoSeparator(lat);
    SplitTwo(FlagSector(flag).value, FormatLat(lat), '_');
  }

  /** Reading a column name back into its flag and latitude: it must split at
      its underscore into exactly two pieces, a dawn/dusk prefix and a number;
      anything else is a ValueError. */
  function ParseLabel(colname: string): (r: Result<(int, real)>)
    ensures r.Failure? ==> r.error == ValueError
  {
    var parts := Split(colname, '_');
    if |parts| != 2 then Failure(ValueError)
    else
      var flag :- SectorFlag(parts[0]);
      var lat :- ParseDecimal(parts[1]);
      Success((flag, lat))
  }

  /** A label reads as a flag and a latitude exactly when it has two pieces
      around one underscore, a dawn/dusk prefix and a number. */
  lemma ParseLabelPieces(colname: string)
    ensures var parts := Split(colname, '_');
      ParseLabel(colname).Success? <==> |parts| == 2 && SectorFlag(parts[0]).Success? && ParseDecimal(parts[1]).Success?
    ensures var parts := Split(colname, '_');
      ParseLabel(colname).Success? ==> ParseLabel(colname).value == (SectorFlag(parts[0]).value, ParseDecimal(parts[1]).value)
  {
  }

  /** A label written for a flag and latitude reads back as that flag and the
      latitude rounded to tenths. */
  lemma LabelRoundTrip(flag: int, lat: real)
    requires flag == 1 || flag == -1
    ensures ParseLabel(ColumnLabel(flag, lat).value) == Success((flag, Rounded(lat)))
  {
    SectorFlagInverse(flag, "");
    ColumnLabelPieces(flag, lat);
    ParseFormatLat(lat);
  }

  /** The flux array has a row per time and a column per latitude bin, and the
      flags run alongside the latitudes. */
  predicate Shaped(lats: seq<real>, flags: seq<int>, fluxes: seq<seq<Option<real>>>) {
    |flags| == |lats| && forall r :: 0 <= r < |fluxes| ==> |fluxes[r]| == |lats|
  }

  /** `fluxes[:, i]`. */
  function ColumnOf(fluxes: seq<seq<Option<real>>>, i: nat): (col: seq<Option<real>>)
    requires forall r :: 0 <= r < |fluxes| ==> i < |fluxes[r]|
    ensures |col| == |fluxes|
  {
    seq(|fluxes|, r requires 0 <= r < |fluxes| => fluxes[r][i])
  }

  /** A dictionary with its keys in insertion order. */
  datatype Dict<K, V> = Dict(keys: seq<K>, data: map<K, V>)

  /** `d[k] = v`: a new key is appended to the keys, a present one keeps its
      place and takes the new value. */
  function Insert<K, V>(d: Dict<K, V>, k: K, v: V): Dict<K, V> {
    Dict(if k in d.data then d.keys else d.keys + [k], d.data[k := v])
  }

  /** The dictionary after storing the entries one after another. */
  function Store<K, V>(entries: seq<(K, V)>): Dict<K, V> {
    if entries == [] then Dict([], map[])
    else Insert(Store(entries[..|entries| - 1]), entries[|entries| - 1].0, entries[|entries| - 1].1)
  }

  /** The keys are the dictionary's keys, each listed once. */
  lemma {:induction false} StoreKeysOnce<K, V>(entries: seq<(K, V)>)
    ensures forall k :: k in Store(entries).data <==> k in Store(entries).keys
    ensures forall p, q :: 0 <= p < q < |Store(entries).keys| ==> Store(entries).keys[p] != Store(entries).keys[q]
  {
    if entries != [] {
      var init := entries[..|entries| - 1];
      var k := entries[|entries| - 1].0;
      StoreKeysOnce(init);
      var prev := Store(init);
      if k !in prev.data {
        var keys := prev.keys + [k];
        assert forall p :: 0 <= p < |prev.keys| ==> keys[p] == prev.keys[p] && keys[p] != k;
      }
    }
  }

  /** Every key came from an entry, and every entry's key is there. */
  lemma {:induction false} StoreKeys<K, V>(entries: seq<(K, V)>)
    ensures forall k :: k in Store(entries).data <==> exists i :: 0 <= i < |entries| && entries[i].0 == k
  {
    if entries != [] {
      var init := entries[..|entries| - 1];
      StoreKeys(init);
      assert forall i :: 0 <= i < |init| ==> init[i] == entries[i];
    }
  }

  /** An entry whose key does not come again holds its value: the last write wins. */
  lemma {:induction false} StoreLastWins<K, V>(entries: seq<(K, V)>, i: nat)
    requires i < |entries|
    requires forall j :: i < j < |entries| ==> entries[j].0 != entries[i].0
    ensures entries[i].0 in Store(entries).data && Store(entries).data[entries[i].0] == entries[i].1
  {
    var init := entries[..|entries| - 1];
    if i < |entries| - 1 {
      assert init[i] == entries[i];
      assert forall j :: i < j < |init| ==> init[j] == entries[j];
      StoreLastWins(init, i);
    }
  }

  /** With distinct keys, the keys are the entries' keys in order. */
  lemma {:induction false} StoreDistinct<K, V>(entries: seq<(K, V)>)
    requires forall p, q :: 0 <= p < q < |entries| ==> entries[p].0 != entries[q].0
    ensures |Store(entries).keys| == |entries|
    ensures forall i :: 0 <= i < |entries| ==> Store(entries).keys[i] == entries[i].0
  {
    if entries != [] {
      var init := entries[..|entries| - 1];
      var last := entries[|entries| - 1].0;
      assert forall i :: 0 <= i < |init| ==> init[i] == entries[i];
      StoreDistinct(init);
      StoreKeys(init);
      assert last !in Store(init).data by {
        forall i | 0 <= i < |init|
          ensures init[i].0 != last
        {
          assert entries[i].0 != entries[|entries| - 1].0;
        }
      }
    }
  }

  /** The labelled columns of the first n latitude bins, when their flags are valid. */
  function Entries(lats: seq<real>, flags: seq<int>, fluxes: seq<seq<Option<real>>>, n: nat)
    : (e: seq<(string, seq<Option<real>>)>)
    requires Shaped(lats, flags, fluxes) && n <= |lats|
    requires forall i :: 0 <= i < n ==> flags[i] == 1 || flags[i] == -1
    ensures |e| == n
  {
    seq(n, i requires 0 <= i < n => Entry(lats, flags, fluxes, i))
  }

  /** Bin i's label and its column of fluxes. */
  function Entry(lats: seq<real>, flags: seq<int>, fluxes: seq<seq<Option<real>>>, i: nat): (string, seq<Option<real>>)
    requires Shaped(lats, flags, fluxes) && i < |lats| && (flags[i] == 1 || flags[i] == -1)
  {
    (ColumnLabel(flags[i], lats[i]).value, ColumnOf(fluxes, i))
  }

  /** Entry i is bin i's label and its column of fluxes. */
  lemma EntryAt(lats: seq<real>, flags: seq<int>, fluxes: seq<seq<Option<real>>>, n: nat, i: nat)
    requires Shaped(lats, flags, fluxes) && i < n <= |lats|
    requires forall j :: 0 <= j < n ==> flags[j] == 1 || flags[j] == -1
    ensures Entries(lats, flags, fluxes, n)[i] == Entry(lats, flags, fluxes, i)
  {
  }

  /** Storing bin n's entry inserts its label and column. */
  lemma StoreStep(lats: seq<real>, flags: seq<int>, fluxes: seq<seq<Option<real>>>, n: nat)
    requires Shaped(lats, flags, fluxes) && n < |lats|
    requires forall i :: 0 <= i <= n ==> flags[i] == 1 || flags[i] == -1
    ensures Store(Entries(lats, flags, fluxes, n + 1))
      == Insert(Store(Entries(lats, flags, fluxes, n)), ColumnLabel(flags[n], lats[n]).value, ColumnOf(fluxes, n))
  {
    var e, e' := Entries(lats, flags, fluxes, n), Entries(lats, flags, fluxes, n + 1);
    assert e'[..|e'| - 1] == e by {
      assert forall i :: 0 <= i < n ==> e'[..|e'| - 1][i] == e[i];
    }
  }

  predicate ValidFlags(flags: seq<int>) {
    forall i :: 0 <= i < |flags| ==> flags[i] == 1 || flags[i] == -1
  }

  /** A frame: the time index, the column labels in order, the columns. */
  datatype FluxFrame = FluxFrame(index: seq<Option<int>>, labels: seq<string>, columns: map<string, seq<Option<real>>>)

  /** `latbinned_flux_to_dataframe` as evidently intended, with pandas imported
      as `pd`, as a value: the columns stored under their labels, indexed by time;
      a flag other than 1 or -1 is a ValueError. */
  function FluxFrameOf(t: seq<Option<int>>, lats: seq<real>, flags: seq<int>, fluxes: seq<seq<Option<real>>>)
    : (r: Result<FluxFrame>)
    requires Shaped(lats, flags, fluxes) && |fluxes| == |t|
    ensures r.Failure? <==> exists i :: 0 <= i < |flags| && flags[i] != 1 && flags[i] != -1
    ensures r.Failure? ==> r.error == ValueError
    ensures r.Success? ==> r.value.index == t
  {
    if !ValidFlags(flags) then Failure(ValueError)
    else
      var d := Store(Entries(lats, flags, fluxes, |lats|));
      Success(FluxFrame(t, d.keys, d.data))
  }

  /** The frame's labels are its column keys, each once, and each is the label of a bin. */
  lemma FluxFrameLabels(t: seq<Option<int>>, lats: seq<real>, flags: seq<int>, fluxes: seq<seq<Option<real>>>)
    requires Shaped(lats, flags, fluxes) && |fluxes| == |t| && ValidFlags(flags)
    ensures var f := FluxFrameOf(t, lats, flags, fluxes).value;
      (forall k :: k in f.columns <==> k in f.labels)
      && (forall p, q :: 0 <= p < q < |f.labels| ==> f.labels[p] != f.labels[q])
      && forall k :: k in f.columns ==> exists i :: 0 <= i < |lats| && ColumnLabel(flags[i], lats[i]) == Success(k)
  {
    var e := Entries(lats, flags, fluxes, |lats|);
    StoreKeysOnce(e);
    StoreKeys(e);
    forall k | k in Store(e).data
      ensures exists i :: 0 <= i < |lats| && ColumnLabel(flags[i], lats[i]) == Success(k)
    {
      var i :| 0 <= i < |e| && e[i].0 == k;
      EntryAt(lats, flags, fluxes, |lats|, i);
    }
  }

  /** A bin's column is stored under its label unless a later bin has the same
      label, which then replaces it. */
  lemma FluxFrameColumn(t: seq<Option<int>>, lats: seq<real>, flags: seq<int>, fluxes: seq<seq<Option<real>>>, i: nat)
    requires Shaped(lats, flags, fluxes) && |fluxes| == |t| && ValidFlags(flags) && i < |lats|
    requires forall j :: i < j < |lats| ==> ColumnLabel(flags[j], lats[j]) != ColumnLabel(flags[i], lats[i])
    ensures var f := FluxFrameOf(t, lats, flags, fluxes).value;
      ColumnLabel(flags[i], lats[i]).value in f.columns && f.columns[ColumnLabel(flags[i], lats[i]).value] == ColumnOf(fluxes, i)
  {
    var e := Entries(lats, flags, fluxes, |lats|);
    EntryAt(lats, flags, fluxes, |lats|, i);
    forall j | i < j < |e|
      ensures e[j].0 != e[i].0
    {
      EntryAt(lats, flags, fluxes, |lats|, j);
    }
    StoreLastWins(e, i);
  }

  /** With distinct labels the frame has one column per bin, in bin order. */
  lemma FluxFrameDistinct(t: seq<Option<int>>, lats: seq<real>, flags: seq<int>, fluxes: seq<seq<Option<real>>>)
    requires Shaped(lats, flags, fluxes) && |fluxes| == |t| && ValidFlags(flags)
    requires forall p, q :: 0 <= p < q < |lats| ==> ColumnLabel(flags[p], lats[p]) != ColumnLabel(flags[q], lats[q])
    ensures var f := FluxFrameOf(t, lats, flags, fluxes).value;
      |f.labels| == |lats| && forall i :: 0 <= i < |lats| ==> f.labels[i] == ColumnLabel(flags[i], lats[i]).value
  {
    var e := Entries(lats, flags, fluxes, |lats|);
    forall p, q | 0 <= p < q < |e|
      ensures e[p].0 != e[q].0
    {
      EntryAt(lats, flags, fluxes, |lats|, p);
      EntryAt(lats, flags, fluxes, |lats|, q);
    }
    StoreDistinct(e);
    forall i | 0 <= i < |lats|
      ensures Store(e).keys[i] == ColumnLabel(flags[i], lats[i]).value
    {
      EntryAt(lats, flags, fluxes, |lats|, i);
    }
  }

  /** When every column reads as its own distinct label, the frame's labels
      are those labels, in order, each holding its column of fluxes. */
  lemma FluxFrameLabelled(t: seq<Option<int>>, lats: seq<real>, flags: seq<int>, fluxes: seq<seq<Option<real>>>, labels: seq<string>)
    requires Shaped(lats, flags, fluxes) && |fluxes| == |t| && |labels| == |lats|
    requires forall j :: 0 <= j < |labels| ==> ColumnLabel(flags[j], lats[j]) == Success(labels[j])
    requires forall p, q :: 0 <= p < q < |labels| ==> labels[p] != labels[q]
    ensures var f := FluxFrameOf(t, lats, flags, fluxes);
      f.Success? && f.value.labels == labels
      && forall j :: 0 <= j < |labels| ==> labels[j] in f.value.columns && f.value.columns[labels[j]] == ColumnOf(fluxes, j)
  {
    assert ValidFlags(flags);
    FluxFrameDistinct(t, lats, flags, fluxes);
    forall j | 0 <= j < |labels|
      ensures labels[j] in FluxFrameOf(t, lats, flags, fluxes).value.columns
      ensures FluxFrameOf(t, lats, flags, fluxes).value.columns[labels[j]] == ColumnOf(fluxes, j)
    {
      FluxFrameColumn(t, lats, flags, fluxes, j);
    }
  }

  /** `latbinned_flux_to_dataframe` as evidently intended: one column per
      latitude bin, labelled with its sector and centre; an unexpected flag is a
      ValueError. */
  method LatbinnedFluxToDataframe(t: seq<Option<int>>, lats: seq<real>, flags: seq<int>, fluxes: seq<seq<Option<real>>>)
    returns (r: Result<FluxFrame>)
    requires Shaped(lats, flags, fluxes) && |fluxes| == |t|
    ensures r == FluxFrameOf(t, lats, flags, fluxes)
  {
    var datadict: Dict<string, seq<Option<real>>> := Dict([], map[]);
    for i := 0 to |lats|
      invariant forall j :: 0 <= j < i ==> flags[j] == 1 || flags[j] == -1
      invariant Store(Entries(lats, flags, fluxes, i)) == datadict
    {
      var colLabel := ColumnLabel(flags[i], lats[i]);
      if colLabel.Failure? {
        return Failure(colLabel.error);
      }
      StoreStep(lats, flags, fluxes, i);
      datadict := Insert(datadict, colLabel.value, ColumnOf(fluxes, i));
    }
    return Success(FluxFrame(t, datadict.keys, datadict.data));
  }

  /** `latbinned_flux_to_dataframe` as io.py has it: the same loop, but the module
      never imports pandas (io.py:4-7), so the closing `pd.DataFrame(datadict, index=t)`
      is a NameError. It never returns a frame: it fails with the loop's ValueError,
      or with NameError exactly where the intended conversion succeeds. */
  method LatbinnedFluxToDataframeAsWritten(t: seq<Option<int>>, lats: seq<real>, flags: seq<int>, fluxes: seq<seq<Option<real>>>)
    returns (r: Result<FluxFrame>)
    requires Shaped(lats, flags, fluxes) && |fluxes| == |t|
    ensures r.Failure?
    ensures r.error == ValueError <==> !ValidFlags(flags)
    ensures r.error == NameError <==> FluxFrameOf(t, lats, flags, fluxes).Success?
  {
    var frame := LatbinnedFluxToDataframe(t, lats, flags, fluxes);
    if frame.Failure? {
      return frame;
    }
    return Failure(NameError);
  }

  /** The arrays for plotting: a time per orbit, then per latitude bin its centre
      latitude, its dawn/dusk flag and its column of fluxes. */
  datatype LatbinnedFlux = LatbinnedFlux(t: seq<Option<int>>, lats: seq<real>, flags: seq<int>,
                                         fluxes: seq<seq<Option<real>>>)

  /** A binned frame unstacked by orbit: one row per orbit, one group per
      column label, each group holding `width` numeric columns. */
  predicate BinnedShape(binned: seq<seq<LatbinPandas.Group>>, columns: seq<string>, width: nat) {
    forall o :: 0 <= o < |binned| ==> |binned[o]| == |columns| && forall c :: 0 <= c < |columns| ==> |binned[o][c].data| == width
  }

  /** `groupby('orbit_number')['time'].first()` for one orbit: its first time
      that is present, none when all are missing. */
  function FirstTime(row: seq<LatbinPandas.Group>): Option<int> {
    if row == [] then None
    else if row[0].time.Some? then row[0].time
    else FirstTime(row[1..])
  }

  /** The first time is missing only when all are, and otherwise it is the time of
      a group before which every time is missing. */
  lemma {:induction false} FirstTimeIsFirst(row: seq<LatbinPandas.Group>)
    ensures FirstTime(row).None? <==> forall c :: 0 <= c < |row| ==> row[c].time.None?
    ensures FirstTime(row).Some? ==> exists c :: (0 <= c < |row| && row[c].time == FirstTime(row)
      && forall b :: 0 <= b < c ==> row[b].time.None?)
  {
    if row != [] && row[0].time.None? {
      var rest := row[1..];
      FirstTimeIsFirst(rest);
      assert forall c :: 0 < c < |row| ==> row[c] == rest[c - 1];
      if FirstTime(rest).Some? {
        var c :| 0 <= c < |rest| && rest[c].time == FirstTime(rest) && forall b :: 0 <= b < c ==> rest[b].time.None?;
        forall b | 0 <= b < c + 1
          ensures row[b].time.None?
        {
          if b > 0 {
            assert row[b] == rest[b - 1];
          }
        }
        assert row[c + 1].time == FirstTime(row);
      }
    }
  }

  /** `Timestamp.to_pydatetime()`: a datetime holds whole microseconds, so the
      nanoseconds below the microsecond are dropped, rounding down as the
      timestamp's own fields do; a missing time stays missing. */
  function ToPyDatetime(ts: Option<int>): (d: Option<int>)
    ensures d.None? <==> ts.None?
    ensures d.Some? ==> d.value % 1000 == 0 && d.value <= ts.value < d.value + 1000
  {
    match ts
    case None => None
    case Some(ns) => Some(ns / 1000 * 1000)
  }

  /** The whole microsecond at or below a time is the only one less than a
      microsecond below it. */
  lemma ToPyDatetimeUnique(ns: int, d: int)
    requires d % 1000 == 0 && d <= ns < d + 1000
    ensures ToPyDatetime(Some(ns)) == Some(d)
  {
    var e := ToPyDatetime(Some(ns)).value;
    assert e == 1000 * (e / 1000) && d == 1000 * (d / 1000);
    assert -1000 < 1000 * (e / 1000 - d / 1000) < 1000;
  }

  /** The list of orbit times: each orbit's `first()` time, as a datetime. */
  function Times(binned: seq<seq<LatbinPandas.Group>>): (t: seq<Option<int>>)
    ensures |t| == |binned|
  {
    seq(|binned|, o requires 0 <= o < |binned| => ToPyDatetime(FirstTime(binned[o])))
  }

  /** `binneddf[fluxvar].unstack()`: the chosen column of every group, by orbit and label. */
  function Unstack(binned: seq<seq<LatbinPandas.Group>>, columns: seq<string>, width: nat, fluxvar: nat)
    : (u: seq<seq<Option<real>>>)
    requires BinnedShape(binned, columns, width) && fluxvar < width
    ensures |u| == |binned| && forall o :: 0 <= o < |u| ==> |u[o]| == |columns|
  {
    seq(|binned|, o requires 0 <= o < |binned| =>
      seq(|columns|, c requires 0 <= c < |columns| => binned[o][c].data[fluxvar]))
  }

  /** The values of the first n results, or the error of the first failure among them. */
  function Collect<T>(rs: seq<Result<T>>, n: nat): (r: Result<seq<T>>)
    requires n <= |rs|
    ensures r.Success? ==> |r.value| == n
  {
    if n == 0 then Success([])
    else
      var prev :- Collect(rs, n - 1);
      var x :- rs[n - 1];
      Success(prev + [x])
  }

  /** Collecting fails exactly when some result is a failure, with that failure's error. */
  lemma {:induction false} CollectFailure<T>(rs: seq<Result<T>>, n: nat)
    requires n <= |rs|
    ensures Collect(rs, n).Failure? <==> exists i :: 0 <= i < n && rs[i].Failure?
    ensures Collect(rs, n).Failure? ==> exists i :: 0 <= i < n && rs[i] == Failure(Collect(rs, n).error)
  {
    if n > 0 {
      CollectFailure(rs, n - 1);
    }
  }

  /** Results that all succeed collect to their values. */
  lemma {:induction false} CollectSuccesses<T>(rs: seq<Result<T>>, xs: seq<T>, n: nat)
    requires n <= |rs| && n <= |xs| && forall i :: 0 <= i < n ==> rs[i] == Success(xs[i])
    ensures Collect(rs, n) == Success(xs[..n])
  {
    if n > 0 {
      CollectSuccesses(rs, xs, n - 1);
      assert xs[..n] == xs[..n - 1] + [xs[n - 1]];
    }
  }

  /** The first failure decides the error of the whole collection. */
  lemma CollectFirstFailure<T>(rs: seq<Result<T>>, xs: seq<T>, k: nat)
    requires k < |rs| && k <= |xs| && forall i :: 0 <= i < k ==> rs[i] == Success(xs[i])
    requires rs[k].Failure?
    ensures Collect(rs, |rs|) == Failure(rs[k].error)
  {
    CollectSuccesses(rs, xs, k);
    CollectStaysFailed(rs, k + 1, |rs|);
  }

  /** Once a prefix fails, every longer one fails the same way. */
  lemma {:induction false} CollectStaysFailed<T>(rs: seq<Result<T>>, k: nat, n: nat)
    requires k <= n <= |rs| && Collect(rs, k).Failure?
    ensures Collect(rs, n) == Failure(Collect(rs, k).error)
  {
    if k < n {
      CollectStaysFailed(rs, k, n - 1);
    }
  }

  /** On success, value i is result i's value. */
  lemma {:induction false} CollectAt<T>(rs: seq<Result<T>>, n: nat, i: nat)
    requires i < n <= |rs| && Collect(rs, n).Success?
    ensures rs[i] == Success(Collect(rs, n).value[i])
  {
    var prev := Collect(rs, n - 1).value;
    SnocAt(prev, rs[n - 1].value, i);
    if i < n - 1 {
      CollectAt(rs, n - 1, i);
    }
  }

  /** The reading of every column label. */
  function Readings(columns: seq<string>): (rs: seq<Result<(int, real)>>)
    ensures |rs| == |columns|
  {
    seq(|columns|, i requires 0 <= i < |columns| => ParseLabel(columns[i]))
  }

  function Firsts<A, B>(ps: seq<(A, B)>): (r: seq<A>)
    ensures |r| == |ps|
  {
    seq(|ps|, i requires 0 <= i < |ps| => ps[i].0)
  }

  function Seconds<A, B>(ps: seq<(A, B)>): (r: seq<B>)
    ensures |r| == |ps|
  {
    seq(|ps|, i requires 0 <= i < |ps| => ps[i].1)
  }

  /** Two sequences that hold the pairs' components are their firsts and seconds. */
  lemma FirstsSeconds<A, B>(ps: seq<(A, B)>, xs: seq<A>, ys: seq<B>)
    requires |xs| == |ys| == |ps| && forall i :: 0 <= i < |ps| ==> xs[i] == ps[i].0 && ys[i] == ps[i].1
    ensures Firsts(ps) == xs && Seconds(ps) == ys
  {
  }

  /** `dataframe_to_latbinned_flux`, as a value: a KeyError when the frame has no
      such column, a ValueError for a label that does not read as a sector and
      a latitude. */
  function LatbinnedFluxOf(binned: seq<seq<LatbinPandas.Group>>, columns: seq<string>, width: nat, fluxvar: nat)
    : (r: Result<LatbinnedFlux>)
    requires BinnedShape(binned, columns, width)
  {
    if fluxvar >= width then Failure(KeyError)
    else
      var parsed :- Collect(Readings(columns), |columns|);
      Success(LatbinnedFlux(Times(binned), Seconds(parsed), Firsts(parsed), Unstack(binned, columns, width, fluxvar)))
  }

  /** A KeyError when the frame lacks the column, else a ValueError exactly when
      a label does not read; on success, a time and a row of fluxes per orbit and
      a latitude and a flag per column. */
  lemma LatbinnedFluxErrors(binned: seq<seq<LatbinPandas.Group>>, columns: seq<string>, width: nat, fluxvar: nat)
    requires BinnedShape(binned, columns, width)
    ensures var r := LatbinnedFluxOf(binned, columns, width, fluxvar);
      (r.Failure? <==> fluxvar >= width || exists i :: 0 <= i < |columns| && ParseLabel(columns[i]).Failure?)
      && (r.Failure? ==> r.error == (if fluxvar >= width then KeyError else ValueError))
    ensures var r := LatbinnedFluxOf(binned, columns, width, fluxvar);
      r.Success? ==> (|r.value.t| == |r.value.fluxes| == |binned| && |r.value.lats| == |r.value.flags| == |columns|)
  {
    CollectFailure(Readings(columns), |columns|);
    assert forall i :: 0 <= i < |columns| ==> Readings(columns)[i] == ParseLabel(columns[i]);
  }

  /** On success, flag and latitude i are what label i reads as, each orbit's
      time is its first time cut to whole microseconds, and the fluxes are the
      chosen column of every group. */
  lemma LatbinnedFluxReadings(binned: seq<seq<LatbinPandas.Group>>, columns: seq<string>, width: nat, fluxvar: nat, i: nat)
    requires BinnedShape(binned, columns, width) && i < |columns|
    requires LatbinnedFluxOf(binned, columns, width, fluxvar).Success?
    ensures var v := LatbinnedFluxOf(binned, columns, width, fluxvar).value;
      ParseLabel(columns[i]) == Success((v.flags[i], v.lats[i]))
    ensures var v := LatbinnedFluxOf(binned, columns, width, fluxvar).value;
      forall o :: 0 <= o < |binned| ==> v.t[o] == ToPyDatetime(FirstTime(binned[o])) && v.fluxes[o][i] == binned[o][i].data[fluxvar]
  {
    CollectAt(Readings(columns), |columns|, i);
  }

  /** Arrays holding the readings of all labels and the unstacked fluxes are the result. */
  lemma AssembleFlux(binned: seq<seq<LatbinPandas.Group>>, columns: seq<string>, width: nat, fluxvar: nat,
                     readings: seq<(int, real)>, lats: seq<real>, flags: seq<int>, rows: seq<seq<Option<real>>>)
    requires BinnedShape(binned, columns, width) && fluxvar < width
    requires Collect(Readings(columns), |columns|) == Success(readings)
    requires |lats| == |flags| == |readings|
    requires forall i :: 0 <= i < |readings| ==> flags[i] == readings[i].0 && lats[i] == readings[i].1
    requires rows == Unstack(binned, columns, width, fluxvar)
    ensures LatbinnedFluxOf(binned, columns, width, fluxvar) == Success(LatbinnedFlux(Times(binned), lats, flags, rows))
  {
    FirstsSeconds(readings, flags, lats);
  }

  /** `fluxes[:, icol] = values`. */
  method FillColumn(fluxes: array2<Option<real>>, values: seq<seq<Option<real>>>, icol: nat)
    requires icol < fluxes.Length1 && |values| == fluxes.Length0
    requires forall o :: 0 <= o < |values| ==> icol < |values[o]|
    modifies fluxes
    ensures forall o, c :: 0 <= o < fluxes.Length0 && 0 <= c < fluxes.Length1 ==>
      fluxes[o, c] == (if c == icol then values[o][icol] else old(fluxes[o, c]))
  {
    for o := 0 to fluxes.Length0
      invariant forall p, c :: 0 <= p < fluxes.Length0 && 0 <= c < fluxes.Length1 ==>
        fluxes[p, c] == (if c == icol && p < o then values[p][icol] else old(fluxes[p, c]))
    {
      fluxes[o, icol] := values[o][icol];
    }
  }

  /** `dataframe_to_latbinned_flux`: the times, then per column its flag,
      latitude and fluxes, filled into arrays column by column. */
  method DataframeToLatbinnedFlux(binned: seq<seq<LatbinPandas.Group>>, columns: seq<string>, width: nat, fluxvar: nat)
    returns (r: Result<LatbinnedFlux>)
    requires BinnedShape(binned, columns, width)
    ensures r == LatbinnedFluxOf(binned, columns, width, fluxvar)
  {
    var t := Times(binned);
    if fluxvar >= width {
      return Failure(KeyError);
    }
    var df2d := Unstack(binned, columns, width, fluxvar);
    // Every entry of the three arrays is written before they are returned.
    var lats := new real[|columns|];
    var flags := new int[|columns|];
    var fluxes := new Option<real>[|t|, |columns|]((o, c) => None);
    ghost var rs := Readings(columns);
    ghost var readings: seq<(int, real)> := [];
    for icol := 0 to |columns|
      invariant |readings| == icol && forall i :: 0 <= i < icol ==> rs[i] == Success(readings[i])
      invariant forall i :: 0 <= i < icol ==> flags[i] == readings[i].0 && lats[i] == readings[i].1
      invariant forall o, c :: 0 <= o < |t| && 0 <= c < icol ==> fluxes[o, c] == df2d[o][c]
    {
      var parsed := ParseLabel(columns[icol]);
      assert rs[icol] == parsed;
      if parsed.Failure? {
        CollectFirstFailure(rs, readings, icol);
        return Failure(parsed.error);
      }
      flags[icol] := parsed.value.0;
      lats[icol] := parsed.value.1;
      FillColumn(fluxes, df2d, icol);
      readings := readings + [parsed.value];
    }
    CollectSuccesses(rs, readings, |columns|);
    assert readings[..|columns|] == readings;
    RowsOf(fluxes, df2d);
    AssembleFlux(binned, columns, width, fluxvar, readings, lats[..], flags[..], Rows(fluxes));
    return Success(LatbinnedFlux(t, lats[..], flags[..], Rows(fluxes)));
  }

  /** The dawn/dusk flag of a pass direction: 1 for ascending passes, -1 otherwise. */
  function DirectionFlag(ascDesc: string): (flag: int)
    ensures flag == 1 || flag == -1
  {
    if ascDesc == "asc" then 1 else -1
  }

  /** The label of the bins with a given direction and edge sum reads as their
      flag and centre. */
  lemma LabelTextReads(ascDesc: string, edgeSum: int, centre: real)
    requires centre == edgeSum as real / 2.0
    ensures ParseLabel(LatbinPandas.LabelText(LatbinPandas.Sector(ascDesc), edgeSum)) == Success((DirectionFlag(ascDesc), centre))
  {
    LatbinPandas.SectorPlain(ascDesc);
    LatbinPandas.LabelTextPieces(LatbinPandas.Sector(ascDesc), edgeSum);
    LatbinPandas.CentreValue(edgeSum);
    ParseLabelPieces(LatbinPandas.LabelText(LatbinPandas.Sector(ascDesc), edgeSum));
    SectorFlagInverse(DirectionFlag(ascDesc), "");
  }

  /** Writing that flag and centre as a column label gives the label back. */
  lemma LabelTextWritten(ascDesc: string, edgeSum: int, flag: int, centre: real)
    requires flag == DirectionFlag(ascDesc) && centre == edgeSum as real / 2.0
    ensures ColumnLabel(flag, centre) == Success(LatbinPandas.LabelText(LatbinPandas.Sector(ascDesc), edgeSum))
  {
    assert centre == (5 * edgeSum) as real / 10.0;
    FormatLatTenths(5 * edgeSum);
    assert FormatLat(centre) == FormatTenths(5 * edgeSum);
    assert FlagSector(flag) == Success(LatbinPandas.Sector(ascDesc));
  }

  /** A bin's category reads as the bin's flag and centre. */
  lemma CategoryReads(bin: Latbin.Bin)
    ensures ParseLabel(LatbinPandas.Category(bin)) == Success((DirectionFlag(bin.ascDesc), Latbin.Midpoint(bin)))
  {
    LabelTextReads(bin.ascDesc, LatbinPandas.EdgeSum(bin), Latbin.Midpoint(bin));
  }

  /** Writing a bin's flag and centre as a column label gives its category. */
  lemma CategoryWritten(bin: Latbin.Bin, flag: int, centre: real)
    requires flag == DirectionFlag(bin.ascDesc) && centre == Latbin.Midpoint(bin)
    ensures ColumnLabel(flag, centre) == Success(LatbinPandas.Category(bin))
  {
    assert Latbin.Midpoint(bin) == LatbinPandas.EdgeSum(bin) as real / 2.0;
    LabelTextWritten(bin.ascDesc, LatbinPandas.EdgeSum(bin), flag, centre);
  }

  /** Categories names the category of each bin in order. */
  predicate CategoriesOf(bins: seq<Latbin.Bin>, cats: seq<string>) {
    |cats| == |bins| && forall j :: 0 <= j < |bins| ==> cats[j] == LatbinPandas.Category(bins[j])
  }

  /** The layout's categories are those of its bins. */
  lemma LayoutCategories(maxLat: nat, deltaLat: int)
    requires deltaLat > 0
    ensures CategoriesOf(Latbin.Layout(maxLat, deltaLat), LatbinPandas.Categories(maxLat, deltaLat))
  {
    forall j | 0 <= j < |Latbin.Layout(maxLat, deltaLat)|
      ensures LatbinPandas.Categories(maxLat, deltaLat)[j] == LatbinPandas.Category(Latbin.Layout(maxLat, deltaLat)[j])
    {
      LatbinPandas.CategoryAt(maxLat, deltaLat, j);
    }
  }

  /** Each bin's category reads as the bin's flag and centre, and writing
      those back as a column label gives the category again. */
  lemma CategoriesRoundTrip(bins: seq<Latbin.Bin>, cats: seq<string>)
    requires CategoriesOf(bins, cats)
    ensures forall j :: 0 <= j < |cats| ==>
      ParseLabel(cats[j]) == Success((DirectionFlag(bins[j].ascDesc), Latbin.Midpoint(bins[j])))
    ensures forall j :: 0 <= j < |cats| ==>
      ColumnLabel(DirectionFlag(bins[j].ascDesc), Latbin.Midpoint(bins[j])) == Success(cats[j])
  {
    forall j | 0 <= j < |cats|
      ensures ParseLabel(cats[j]) == Success((DirectionFlag(bins[j].ascDesc), Latbin.Midpoint(bins[j])))
      ensures ColumnLabel(DirectionFlag(bins[j].ascDesc), Latbin.Midpoint(bins[j])) == Success(cats[j])
    {
      CategoryReads(bins[j]);
      CategoryWritten(bins[j], DirectionFlag(bins[j].ascDesc), Latbin.Midpoint(bins[j]));
    }
  }

  /** A frame binned with the categories of some bins as its columns turns
      into arrays whose flags and latitudes are the bins' own. */
  lemma FluxReadsBins(binned: seq<seq<LatbinPandas.Group>>, bins: seq<Latbin.Bin>, cats: seq<string>, width: nat, fluxvar: nat)
    requires fluxvar < width && CategoriesOf(bins, cats) && BinnedShape(binned, cats, width)
    ensures var r := LatbinnedFluxOf(binned, cats, width, fluxvar);
      r.Success? && |r.value.flags| == |r.value.lats| == |bins|
      && forall j :: 0 <= j < |bins| ==> r.value.flags[j] == DirectionFlag(bins[j].ascDesc) && r.value.lats[j] == Latbin.Midpoint(bins[j])
  {
    CategoriesRoundTrip(bins, cats);
    LatbinnedFluxErrors(binned, cats, width, fluxvar);
    forall j | 0 <= j < |cats|
      ensures var v := LatbinnedFluxOf(binned, cats, width, fluxvar).value;
        v.flags[j] == DirectionFlag(bins[j].ascDesc) && v.lats[j] == Latbin.Midpoint(bins[j])
    {
      LatbinnedFluxReadings(binned, cats, width, fluxvar, j);
    }
  }

  /** And with distinct categories those arrays turn back into a frame whose
      columns are the categories, in order, each holding the chosen column of
      its groups. */
  lemma FrameOfBins(binned: seq<seq<LatbinPandas.Group>>, bins: seq<Latbin.Bin>, cats: seq<string>, width: nat, fluxvar: nat)
    requires fluxvar < width && CategoriesOf(bins, cats) && BinnedShape(binned, cats, width)
    requires forall p, q :: 0 <= p < q < |cats| ==> cats[p] != cats[q]
    ensures var r := LatbinnedFluxOf(binned, cats, width, fluxvar);
      r.Success? && Shaped(r.value.lats, r.value.flags, r.value.fluxes) && |r.value.fluxes| == |r.value.t|
      && var f := FluxFrameOf(r.value.t, r.value.lats, r.value.flags, r.value.fluxes);
      f.Success? && f.value.index == Times(binned) && f.value.labels == cats
      && forall j :: 0 <= j < |cats| ==> cats[j] in f.value.columns && f.value.columns[cats[j]] == ColumnOf(r.value.fluxes, j)
  {
    FluxReadsBins(binned, bins, cats, width, fluxvar);
    CategoriesRoundTrip(bins, cats);
    LatbinnedFluxErrors(binned, cats, width, fluxvar);
    var v := LatbinnedFluxOf(binned, cats, width, fluxvar).value;
    FluxFrameLabelled(v.t, v.lats, v.flags, v.fluxes, cats);
  }

  /** A frame binned with the layout's categories as its columns turns into
      arrays whose flags and latitudes are the bins' own. */
  lemma FluxRoundTrip(binned: seq<seq<LatbinPandas.Group>>, maxLat: nat, deltaLat: int, width: nat, fluxvar: nat)
    requires deltaLat > 0 && fluxvar < width
    requires BinnedShape(binned, LatbinPandas.Categories(maxLat, deltaLat), width)
    ensures var layout := Latbin.Layout(maxLat, deltaLat);
      var r := LatbinnedFluxOf(binned, LatbinPandas.Categories(maxLat, deltaLat), width, fluxvar);
      r.Success? && |r.value.flags| == |r.value.lats| == |layout|
      && forall j :: 0 <= j < |layout| ==> r.value.flags[j] == DirectionFlag(layout[j].ascDesc) && r.value.lats[j] == Latbin.Midpoint(layout[j])
  {
    LayoutCategories(maxLat, deltaLat);
    FluxReadsBins(binned, Latbin.Layout(maxLat, deltaLat), LatbinPandas.Categories(maxLat, deltaLat), width, fluxvar);
  }

  /** And those arrays turn back into a frame whose columns are the categories,
      in layout order, each holding the chosen column of its groups. */
  lemma FrameRoundTrip(binned: seq<seq<LatbinPandas.Group>>, maxLat: nat, deltaLat: int, width: nat, fluxvar: nat)
    requires deltaLat > 0 && fluxvar < width
    requires BinnedShape(binned, LatbinPandas.Categories(maxLat, deltaLat), width)
    ensures var cats := LatbinPandas.Categories(maxLat, deltaLat);
      var r := LatbinnedFluxOf(binned, cats, width, fluxvar);
      r.Success? && Shaped(r.value.lats, r.value.flags, r.value.fluxes) && |r.value.fluxes| == |r.value.t|
      && var f := FluxFrameOf(r.value.t, r.value.lats, r.value.flags, r.value.fluxes);
      f.Success? && f.value.index == Times(binned) && f.value.labels == cats
      && forall j :: 0 <= j < |cats| ==> cats[j] in f.value.columns && f.value.columns[cats[j]] == ColumnOf(r.value.fluxes, j)
  {
    var cats := LatbinPandas.Categories(maxLat, deltaLat);
    LayoutCategories(maxLat, deltaLat);
    forall p, q | 0 <= p < q < |cats|
      ensures cats[p] != cats[q]
    {
      LatbinPandas.CategoriesDistinct(maxLat, deltaLat, p, q);
    }
    FrameOfBins(binned, Latbin.Layout(maxLat, deltaLat), cats, width, fluxvar);
  }

}
