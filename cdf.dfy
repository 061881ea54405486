/** Reading one spacecraft day in context (ssjlatbin/cdf.py): the table of
    derived variables, the three-day continuity check, orbit numbering from
    equator-crossing boundaries, orbit start times and the whole-orbit filter.
    Times are integer nanoseconds, dates whole days since the epoch. */
module Cdf {
  import opened Wrappers
  import opened Sequences
  import opened Tools
  import opened Text

  /** Where a data-frame variable comes from: a one-dimensional CDF variable,
      or a per-channel CDF variable totalled by `integrate_flux` over some
      channels in some mode. */
  datatype VarSource = Direct(cdfvar: string) | Integrated(cdfvar: string, channels: seq<int>, mode: string)

  /** One entry of `totaling_functions`: its key and the bound arguments. */
  datatype Totaling = Totaling(key: string, channels: seq<int>, mode: string)

  const FluxTypes: seq<string> := ["energy", "number"]
  const SetKeys: seq<string> := ["soft", "hard", "total"]
  /** The per-channel CDF variables and their key prefixes. */
  const Species: seq<(string, string)> := [("ELE_DIFF_ENERGY_FLUX", "ele"), ("ION_DIFF_ENERGY_FLUX", "ion")]

  function ChannelSet(c: nat, soft: seq<int>, hard: seq<int>, all: seq<int>): seq<int>
    requires c < 3
  {
    if c == 0 then soft else if c == 1 then hard else all
  }

  /** The totaling function for channel set c in flux type f. */
  function TotalingAt(c: nat, f: nat, soft: seq<int>, hard: seq<int>, all: seq<int>): Totaling
    requires c < 3 && f < 2
  {
    Totaling(SetKeys[c] + "_" + FluxTypes[f], ChannelSet(c, soft, hard, all), FluxTypes[f])
  }

  /** `totaling_functions` in insertion order: soft, hard, total, each in energy then number mode. */
  function TotalingFunctions(soft: seq<int>, hard: seq<int>, all: seq<int>): (t: seq<Totaling>)
    ensures |t| == 6
  {
    [TotalingAt(0, 0, soft, hard, all), TotalingAt(0, 1, soft, hard, all),
     TotalingAt(1, 0, soft, hard, all), TotalingAt(1, 1, soft, hard, all),
     TotalingAt(2, 0, soft, hard, all), TotalingAt(2, 1, soft, hard, all)]
  }

  /** The entry written for species s and totaling function t. */
  function DerivedAt(s: nat, t: Totaling): (string, VarSource)
    requires s < 2
  {
    (Species[s].1 + "_" + t.key, Integrated(Species[s].0, t.channels, t.mode))
  }

  /** The twelve entries the second pair of loops writes, in order. */
  function DerivedEntries(soft: seq<int>, hard: seq<int>, all: seq<int>): (d: seq<(string, VarSource)>)
    ensures |d| == 12
  {
    var t := TotalingFunctions(soft, hard, all);
    [DerivedAt(0, t[0]), DerivedAt(0, t[1]), DerivedAt(0, t[2]), DerivedAt(0, t[3]), DerivedAt(0, t[4]), DerivedAt(0, t[5]),
     DerivedAt(1, t[0]), DerivedAt(1, t[1]), DerivedAt(1, t[2]), DerivedAt(1, t[3]), DerivedAt(1, t[4]), DerivedAt(1, t[5])]
  }

  lemma TotalingIndex(c: nat, f: nat, soft: seq<int>, hard: seq<int>, all: seq<int>)
    requires c < 3 && f < 2
    ensures TotalingFunctions(soft, hard, all)[2 * c + f] == TotalingAt(c, f, soft, hard, all)
  {
  }

  lemma DerivedIndex(s: nat, f: nat, soft: seq<int>, hard: seq<int>, all: seq<int>)
    requires s < 2 && f < 6
    ensures DerivedEntries(soft, hard, all)[6 * s + f] == DerivedAt(s, TotalingFunctions(soft, hard, all)[f])
  {
  }

  /** A dictionary after assigning the entries in order. */
  function Apply(m: map<string, VarSource>, entries: seq<(string, VarSource)>): map<string, VarSource> {
    if entries == [] then m
    else Apply(m, entries[..|entries| - 1])[entries[|entries| - 1].0 := entries[|entries| - 1].1]
  }

  /** The name written for species s, channel set c and flux type f:
      `{ele,ion}_{soft,hard,total}_{energy,number}`. */
  function DerivedKey(s: nat, c: nat, f: nat): string
    requires s < 2 && c < 3 && f < 2
  {
    Species[s].1 + "_" + (SetKeys[c] + "_" + FluxTypes[f])
  }

  /** The entry at 6s + 2c + f carries the name for s, c and f. */
  lemma DerivedKeyAt(soft: seq<int>, hard: seq<int>, all: seq<int>, s: nat, c: nat, f: nat)
    requires s < 2 && c < 3 && f < 2
    ensures DerivedEntries(soft, hard, all)[6 * s + 2 * c + f].0 == DerivedKey(s, c, f)
  {
    DerivedIndex(s, 2 * c + f, soft, hard, all);
    TotalingIndex(c, f, soft, hard, all);
  }

  lemma NoUnderscores()
    ensures forall s :: 0 <= s < 2 ==> '_' !in Species[s].1
    ensures forall c :: 0 <= c < 3 ==> '_' !in SetKeys[c]
    ensures forall f :: 0 <= f < 2 ==> '_' !in FluxTypes[f]
  {
  }

  /** Splitting a derived name on `_` gives back its three parts. */
  lemma SplitDerivedKey(s: nat, c: nat, f: nat)
    requires s < 2 && c < 3 && f < 2
    ensures Split(DerivedKey(s, c, f), '_') == [Species[s].1, SetKeys[c], FluxTypes[f]]
  {
    NoUnderscores();
    SplitCons(Species[s].1, SetKeys[c] + "_" + FluxTypes[f], '_');
    SplitTwo(SetKeys[c], FluxTypes[f], '_');
  }

  /** The twelve names are distinct, so no entry overwrites another. */
  lemma DerivedKeyInjective(s: nat, c: nat, f: nat, s': nat, c': nat, f': nat)
    requires s < 2 && c < 3 && f < 2 && s' < 2 && c' < 3 && f' < 2
    requires DerivedKey(s, c, f) == DerivedKey(s', c', f')
    ensures s == s' && c == c' && f == f'
  {
    SplitDerivedKey(s, c, f);
    SplitDerivedKey(s', c', f');
    var parts := Split(DerivedKey(s, c, f), '_');
    assert Species[s].1 == parts[0] == Species[s'].1;
    assert SetKeys[c] == parts[1] == SetKeys[c'];
    assert FluxTypes[f] == parts[2] == FluxTypes[f'];
    PartsDistinct(s, c, f, s', c', f');
  }

  /** Different species, channel sets or flux types have different names. */
  lemma PartsDistinct(s: nat, c: nat, f: nat, s': nat, c': nat, f': nat)
    requires s < 2 && c < 3 && f < 2 && s' < 2 && c' < 3 && f' < 2
    requires Species[s].1 == Species[s'].1 && SetKeys[c] == SetKeys[c'] && FluxTypes[f] == FluxTypes[f']
    ensures s == s' && c == c' && f == f'
  {
    FirstLetters();
    assert Species[s].1[0] == Species[s'].1[0];
    assert SetKeys[c][0] == SetKeys[c'][0];
    assert FluxTypes[f][0] == FluxTypes[f'][0];
  }

  lemma FirstLetters()
    ensures Species[0].1[0] == 'e' && Species[1].1[0] == 'i'
    ensures SetKeys[0][0] == 's' && SetKeys[1][0] == 'h' && SetKeys[2][0] == 't'
    ensures FluxTypes[0][0] == 'e' && FluxTypes[1][0] == 'n'
  {
  }

  /** The species, channel set and flux type of entry j (j = 6s + 2c + f). */
  function SpeciesOf(j: nat): (s: nat)
    requires j < 12
    ensures s < 2
  {
    if j < 6 then 0 else 1
  }

  function SetOf(j: nat): (c: nat)
    requires j < 12
    ensures c < 3
  {
    var r := j - 6 * SpeciesOf(j);
    if r < 2 then 0 else if r < 4 then 1 else 2
  }

  function TypeOf(j: nat): (f: nat)
    requires j < 12
    ensures f < 2 && j == 6 * SpeciesOf(j) + 2 * SetOf(j) + f
  {
    j - 6 * SpeciesOf(j) - 2 * SetOf(j)
  }

  /** The entry at position j, named by its species, channel set and flux type. */
  lemma EntryKey(soft: seq<int>, hard: seq<int>, all: seq<int>, j: nat)
    requires j < 12
    ensures DerivedEntries(soft, hard, all)[j].0 == DerivedKey(SpeciesOf(j), SetOf(j), TypeOf(j))
  {
    DerivedKeyAt(soft, hard, all, SpeciesOf(j), SetOf(j), TypeOf(j));
  }

  /** Species s, channel set c and flux type f give the entry at 6s + 2c + f. */
  lemma DerivedValuesAre(soft: seq<int>, hard: seq<int>, all: seq<int>, s: nat, c: nat, f: nat)
    requires s < 2 && c < 3 && f < 2
    ensures DerivedEntries(soft, hard, all)[6 * s + 2 * c + f].1 ==
      Integrated(Species[s].0, ChannelSet(c, soft, hard, all), FluxTypes[f])
  {
    DerivedIndex(s, 2 * c + f, soft, hard, all);
    TotalingIndex(c, f, soft, hard, all);
  }

  /** An assigned key holds the value of its last assignment. */
  lemma {:induction false} ApplyAt(m: map<string, VarSource>, entries: seq<(string, VarSource)>, k: nat)
    requires k < |entries|
    requires forall j :: k < j < |entries| ==> entries[j].0 != entries[k].0
    ensures entries[k].0 in Apply(m, entries) && Apply(m, entries)[entries[k].0] == entries[k].1
  {
    var init := entries[..|entries| - 1];
    if k < |entries| - 1 {
      forall j | k < j < |init|
        ensures init[j].0 != init[k].0
      {
        assert init[j] == entries[j];
      }
      ApplyAt(m, init, k);
    }
  }

  /** A key no entry assigns keeps its old presence and value. */
  lemma {:induction false} ApplyElsewhere(m: map<string, VarSource>, entries: seq<(string, VarSource)>, key: string)
    requires forall j :: 0 <= j < |entries| ==> entries[j].0 != key
    ensures key in Apply(m, entries) <==> key in m
    ensures key in m ==> Apply(m, entries)[key] == m[key]
  {
    if entries != [] {
      var init := entries[..|entries| - 1];
      forall j | 0 <= j < |init|
        ensures init[j].0 != key
      {
        assert init[j] == entries[j];
      }
      ApplyElsewhere(m, init, key);
    }
  }

  /** Whether a name is one of the twelve derived names. */
  predicate IsDerivedKey(key: string) {
    exists s, c, f :: 0 <= s < 2 && 0 <= c < 3 && 0 <= f < 2 && key == DerivedKey(s, c, f)
  }

  /** After the table is defined: each derived name maps to the integrator over
      its channel set in its flux type, and every other name is as before. */
  lemma DefinedContents(m: map<string, VarSource>, soft: seq<int>, hard: seq<int>, all: seq<int>, key: string)
    ensures var r := Apply(m, DerivedEntries(soft, hard, all));
      (forall s, c, f :: 0 <= s < 2 && 0 <= c < 3 && 0 <= f < 2 ==>
        DerivedKey(s, c, f) in r
        && r[DerivedKey(s, c, f)] == Integrated(Species[s].0, ChannelSet(c, soft, hard, all), FluxTypes[f]))
      && (!IsDerivedKey(key) ==> (key in r <==> key in m) && (key in m ==> r[key] == m[key]))
  {
    var d := DerivedEntries(soft, hard, all);
    forall s, c, f | 0 <= s < 2 && 0 <= c < 3 && 0 <= f < 2
      ensures DerivedKey(s, c, f) in Apply(m, d)
        && Apply(m, d)[DerivedKey(s, c, f)] == Integrated(Species[s].0, ChannelSet(c, soft, hard, all), FluxTypes[f])
    {
      var k := 6 * s + 2 * c + f;
      DerivedKeyAt(soft, hard, all, s, c, f);
      forall j | k < j < 12
        ensures d[j].0 != d[k].0
      {
        EntryKey(soft, hard, all, j);
        if d[j].0 == d[k].0 {
          DerivedKeyInjective(s, c, f, SpeciesOf(j), SetOf(j), TypeOf(j));
          assert false;
        }
      }
      ApplyAt(m, d, k);
      DerivedValuesAre(soft, hard, all, s, c, f);
    }
    if !IsDerivedKey(key) {
      forall j | 0 <= j < 12
        ensures d[j].0 != key
      {
        EntryKey(soft, hard, all, j);
      }
      ApplyElsewhere(m, d, key);
    }
  }

  /** The part of `config` the table builder reads and writes. */
  class SsjConfig {
    var dataframeVarToCdfVar: map<string, VarSource>
    var softChannels: seq<int>
    var hardChannels: seq<int>
    var allChannels: seq<int>

    constructor (vars: map<string, VarSource>, soft: seq<int>, hard: seq<int>, all: seq<int>)
      ensures dataframeVarToCdfVar == vars
      ensures softChannels == soft && hardChannels == hard && allChannels == all
    {
      dataframeVarToCdfVar := vars;
      softChannels, hardChannels, allChannels := soft, hard, all;
    }

    /** `_define_ssj_dataframe_contents`: builds the six totaling functions, then
        adds one entry per species and totaling function to the caller's table,
        and returns that table. */
    method DefineSsjDataframeContents() returns (r: map<string, VarSource>)
      modifies this
      ensures dataframeVarToCdfVar == Apply(old(dataframeVarToCdfVar), DerivedEntries(softChannels, hardChannels, allChannels))
      ensures softChannels == old(softChannels) && hardChannels == old(hardChannels) && allChannels == old(allChannels)
      ensures r == dataframeVarToCdfVar
    {
      var sets := [(softChannels, "soft"), (hardChannels, "hard"), (allChannels, "total")];
      ghost var soft, hard, all := softChannels, hardChannels, allChannels;
      ghost var spec := TotalingFunctions(soft, hard, all);
      var totaling: seq<Totaling> := [];
      for c := 0 to 3
        invariant totaling == spec[..2 * c]
        invariant dataframeVarToCdfVar == old(dataframeVarToCdfVar)
        invariant softChannels == soft && hardChannels == hard && allChannels == all
      {
        for f := 0 to 2
          invariant totaling == spec[..2 * c + f]
          invariant dataframeVarToCdfVar == old(dataframeVarToCdfVar)
          invariant softChannels == soft && hardChannels == hard && allChannels == all
        {
          TotalingIndex(c, f, soft, hard, all);
          totaling := totaling + [Totaling(sets[c].1 + "_" + FluxTypes[f], sets[c].0, FluxTypes[f])];
          assert spec[..2 * c + f + 1] == spec[..2 * c + f] + [spec[2 * c + f]];
        }
      }
      ghost var derived := DerivedEntries(soft, hard, all);
      ghost var start := dataframeVarToCdfVar;
      for s := 0 to 2
        invariant dataframeVarToCdfVar == Apply(start, derived[..6 * s])
        invariant softChannels == soft && hardChannels == hard && allChannels == all
      {
        for f := 0 to |totaling|
          invariant dataframeVarToCdfVar == Apply(start, derived[..6 * s + f])
          invariant softChannels == soft && hardChannels == hard && allChannels == all
        {
          DerivedIndex(s, f, soft, hard, all);
          dataframeVarToCdfVar := dataframeVarToCdfVar[Species[s].1 + "_" + totaling[f].key :=
            Integrated(Species[s].0, totaling[f].channels, totaling[f].mode)];
          assert derived[..6 * s + f + 1][..6 * s + f] == derived[..6 * s + f];
        }
      }
      assert derived[..12] == derived;
      r := dataframeVarToCdfVar;
    }
  }

  /** One row of the combined data frame: its time index, its orbit number
      (none for NaN) and its other columns (none for NaN). */
  datatype Sample = Sample(time: int, orbit: Option<int>, values: seq<Option<real>>)

  /** One row as read from a day's file: time, geographic latitude and the other columns. */
  datatype Reading = Reading(time: int, glat: real, values: seq<Option<real>>)

  function TimeOf(s: Sample): int {
    s.time
  }

  function Times(rows: seq<Reading>): (t: seq<int>)
    ensures |t| == |rows| && forall i :: 0 <= i < |rows| ==> t[i] == rows[i].time
  {
    seq(|rows|, i requires 0 <= i < |rows| => rows[i].time)
  }

  function Glats(rows: seq<Reading>): (g: seq<real>)
    ensures |g| == |rows| && forall i :: 0 <= i < |rows| ==> g[i] == rows[i].glat
  {
    seq(|rows|, i requires 0 <= i < |rows| => rows[i].glat)
  }

  // ---- Three consecutive days

  /** The check and concatenation of `_read_current_previous_next_ssj_cdfs`:
      the previous day's median date must be one less than the current one's,
      the next day's one more; the days are then stacked. Median dates are
      taken in source order, so an empty frame raises IndexError where it is
      first reached. */
  function ConsecutiveDays(prev: seq<Reading>, curr: seq<Reading>, next: seq<Reading>): (r: Result<seq<Reading>>)
    ensures r.Success? <==> (|prev| > 0 && |curr| > 0 && |next| > 0
      && MedianDate(Times(prev)).value == MedianDate(Times(curr)).value - 1
      && MedianDate(Times(next)).value == MedianDate(Times(curr)).value + 1)
    ensures r.Success? ==> r.value == prev + curr + next
    ensures r.Failure? ==> (r.error == IndexError <==>
      |prev| == 0 || |curr| == 0
      || (MedianDate(Times(prev)).value == MedianDate(Times(curr)).value - 1 && |next| == 0))
    ensures r.Failure? ==> r.error == IndexError || r.error == ValueError
  {
    var p :- MedianDate(Times(prev));
    var c :- MedianDate(Times(curr));
    if p != c - 1 then Failure(ValueError)
    else
      var n :- MedianDate(Times(next));
      if n != c + 1 then Failure(ValueError) else Success(prev + curr + next)
  }

  /** The check looks only at each day's multiset of times: reordering the rows
      within a day does not change whether the three days are accepted. */
  lemma ConsecutiveDaysOrderFree(prev: seq<Reading>, curr: seq<Reading>, next: seq<Reading>,
                                 prev': seq<Reading>, curr': seq<Reading>, next': seq<Reading>)
    requires multiset(Times(prev)) == multiset(Times(prev'))
    requires multiset(Times(curr)) == multiset(Times(curr'))
    requires multiset(Times(next)) == multiset(Times(next'))
    ensures ConsecutiveDays(prev, curr, next).Success? <==> ConsecutiveDays(prev', curr', next').Success?
  {
    MedianDatePermutationInvariant(Times(prev), Times(prev'));
    MedianDatePermutationInvariant(Times(curr), Times(curr'));
    MedianDatePermutationInvariant(Times(next), Times(next'));
  }

  // ---- Orbit numbering

  /** The reference day: a date, or a datetime that is first reduced to its date. */
  datatype Reference = OnDate(day: int) | AtTime(t: int)

  function RefDate(reference: Reference): int {
    match reference
    case OnDate(d) => d
    case AtTime(t) => DateOf(t)
  }

  /** The number of consecutive boundary pairs, `len(zip(eqx[:-1], eqx[1:]))`. */
  function Pairs(eqx: seq<nat>): nat {
    if |eqx| == 0 then 0 else |eqx| - 1
  }

  /** Sample i lies in segment k, the slice `[eqx[k]:eqx[k+1]]`. */
  predicate Covers(eqx: seq<nat>, k: int, i: int)
    requires 0 <= k && k + 1 < |eqx|
  {
    eqx[k] <= i < eqx[k + 1]
  }

  /** Some sample of segment k falls on the given day. */
  predicate SegmentHasDate(times: seq<int>, eqx: seq<nat>, k: int, day: int)
    requires 0 <= k && k + 1 < |eqx|
  {
    exists i :: 0 <= i < |times| && Covers(eqx, k, i) && DateOf(times[i]) == day
  }

  /** The first segment from k on holding a sample of the day. */
  function FirstDateSegmentFrom(times: seq<int>, eqx: seq<nat>, day: int, k: nat): (r: Option<nat>)
    ensures r.Some? ==> (k <= r.value && r.value + 1 < |eqx| && SegmentHasDate(times, eqx, r.value, day)
      && forall j :: k <= j < r.value ==> !SegmentHasDate(times, eqx, j, day))
    ensures r.None? ==> forall j :: k <= j && j + 1 < |eqx| ==> !SegmentHasDate(times, eqx, j, day)
    decreases |eqx| - k
  {
    if k + 1 >= |eqx| then None
    else if SegmentHasDate(times, eqx, k, day) then Some(k)
    else FirstDateSegmentFrom(times, eqx, day, k + 1)
  }

  /** `xing_zero`: the first segment holding a sample of the reference day. */
  function XingZero(times: seq<int>, eqx: seq<nat>, day: int): (r: Option<nat>)
    ensures r.Some? ==> (r.value + 1 < |eqx| && SegmentHasDate(times, eqx, r.value, day)
      && forall j :: 0 <= j < r.value ==> !SegmentHasDate(times, eqx, j, day))
    ensures r.None? ==> forall j :: 0 <= j && j + 1 < |eqx| ==> !SegmentHasDate(times, eqx, j, day)
  {
    FirstDateSegmentFrom(times, eqx, day, 0)
  }

  /** The last of the first k segments that covers sample i: the slice that
      wrote sample i last. */
  function LastCovering(eqx: seq<nat>, i: int, k: nat): (r: Option<nat>)
    requires k <= Pairs(eqx)
    ensures r.Some? ==> (r.value < k && Covers(eqx, r.value, i)
      && forall j :: r.value < j < k ==> !Covers(eqx, j, i))
    ensures r.None? ==> forall j :: 0 <= j < k ==> !Covers(eqx, j, i)
  {
    if k == 0 then None
    else if Covers(eqx, k - 1, i) then Some(k - 1)
    else LastCovering(eqx, i, k - 1)
  }

  function Label(segment: Option<nat>, xingZero: nat): Option<int> {
    match segment
    case None => None
    case Some(k) => Some(k - xingZero)
  }

  /** What `_number_orbits` computes: RuntimeError when no segment holds a
      sample of the reference day; otherwise each sample is numbered after the
      last slice covering it, relative to `xing_zero`, and is none when no
      slice covers it. */
  function OrbitNumbering(times: seq<int>, eqx: seq<nat>, reference: Reference): (r: Result<seq<Option<int>>>)
    ensures r.Failure? <==> XingZero(times, eqx, RefDate(reference)).None?
    ensures r.Failure? ==> r.error == RuntimeError
    ensures r.Success? ==> |r.value| == |times|
  {
    var z := XingZero(times, eqx, RefDate(reference));
    if z.None? then Failure(RuntimeError) else Success(Numbered(eqx, z.value, |times|))
  }

  /** The numbers of n samples once `xing_zero` is known. */
  function Numbered(eqx: seq<nat>, xingZero: nat, n: nat): (orbits: seq<Option<int>>)
    ensures |orbits| == n
    ensures forall i :: 0 <= i < n ==> orbits[i] == Label(LastCovering(eqx, i, Pairs(eqx)), xingZero)
  {
    seq(n, i => Label(LastCovering(eqx, i, Pairs(eqx)), xingZero))
  }

  function Clamp(i: nat, n: nat): (c: nat)
    ensures c <= n && (c < n ==> c == i)
  {
    if i < n then i else n
  }

  /** `_number_orbits` given the boundary indices the pass detector finds: a
      search for the first segment holding a sample of the reference day that
      stops at the first hit, then one slice assignment per segment. */
  method NumberOrbits(times: seq<int>, eqx: seq<nat>, reference: Reference) returns (r: Result<seq<Option<int>>>)
    ensures r == OrbitNumbering(times, eqx, reference)
  {
    var n := |times|;
    var refdate := match reference case OnDate(d) => d case AtTime(t) => DateOf(t);
    var pairs := if |eqx| == 0 then 0 else |eqx| - 1;
    var xingZero: Option<nat> := None;
    var ixing := 0;
    while ixing < pairs
      invariant ixing <= pairs
      invariant xingZero.None?
      invariant forall j :: 0 <= j < ixing ==> !SegmentHasDate(times, eqx, j, refdate)
    {
      var lo, hi := Clamp(eqx[ixing], n), Clamp(eqx[ixing + 1], n);
      if exists i | lo <= i < hi :: DateOf(times[i]) == refdate {
        xingZero := Some(ixing);
        break;
      }
      ixing := ixing + 1;
    }
    XingZeroUnique(times, eqx, refdate, xingZero);
    if xingZero.None? {
      return Failure(RuntimeError);
    }
    var x := xingZero.value;
    var orbit := new Option<int>[n](_ => None);
    for k := 0 to pairs
      invariant forall i :: 0 <= i < n ==> orbit[i] == Label(LastCovering(eqx, i, k), x)
    {
      var lo, hi := Clamp(eqx[k], n), Clamp(eqx[k + 1], n);
      if lo < hi {
        for i := lo to hi
          invariant forall j :: 0 <= j < n ==> orbit[j] == (if lo <= j < i then Some(k - x) else Label(LastCovering(eqx, j, k), x))
        {
          orbit[i] := Some(k - x);
        }
      }
    }
    assert orbit[..] == Numbered(eqx, x, n);
    r := Success(orbit[..]);
  }

  /** The search result is the first segment holding a sample of the day. */
  lemma XingZeroUnique(times: seq<int>, eqx: seq<nat>, day: int, found: Option<nat>)
    requires found.None? ==> forall j :: 0 <= j < Pairs(eqx) ==> !SegmentHasDate(times, eqx, j, day)
    requires found.Some? ==> (found.value + 1 < |eqx| && SegmentHasDate(times, eqx, found.value, day)
      && forall j :: 0 <= j < found.value ==> !SegmentHasDate(times, eqx, j, day))
    ensures found == XingZero(times, eqx, day)
  {
    var z := XingZero(times, eqx, day);
    if found.Some? && z.Some? {
      if found.value < z.value || z.value < found.value {
        assert false;
      }
    }
  }

  /** Increasing boundaries keep their order: a smaller boundary comes first. */
  lemma IndexOrder(eqx: seq<nat>, p: nat, q: nat)
    requires StrictlyIncreasing(eqx) && p < |eqx| && q < |eqx| && eqx[p] < eqx[q]
    ensures p < q
  {
  }

  /** With strictly increasing boundaries the segments are disjoint. */
  lemma CoveringUnique(eqx: seq<nat>, k: nat, j: nat, i: int)
    requires StrictlyIncreasing(eqx)
    requires k + 1 < |eqx| && j + 1 < |eqx| && Covers(eqx, k, i) && Covers(eqx, j, i)
    ensures k == j
  {
    IndexOrder(eqx, k, j + 1);
    IndexOrder(eqx, j, k + 1);
  }

  /** A sample in segment k is numbered k - xing_zero. */
  lemma SegmentNumber(times: seq<int>, eqx: seq<nat>, reference: Reference, k: nat, i: nat)
    requires StrictlyIncreasing(eqx)
    requires OrbitNumbering(times, eqx, reference).Success?
    requires k + 1 < |eqx| && i < |times| && eqx[k] <= i < eqx[k + 1]
    ensures OrbitNumbering(times, eqx, reference).value[i] == Some(k - XingZero(times, eqx, RefDate(reference)).value)
  {
    assert Covers(eqx, k, i);
    var c := LastCovering(eqx, i, Pairs(eqx));
    CoveringUnique(eqx, k, c.value, i);
  }

  /** Samples before the first boundary or at or after the last one stay unnumbered. */
  lemma OutsideUnnumbered(times: seq<int>, eqx: seq<nat>, reference: Reference, i: nat)
    requires StrictlyIncreasing(eqx)
    requires OrbitNumbering(times, eqx, reference).Success?
    requires i < |times| && (|eqx| == 0 || i < eqx[0] || i >= eqx[|eqx| - 1])
    ensures OrbitNumbering(times, eqx, reference).value[i] == None
  {
    forall k | 0 <= k < Pairs(eqx)
      ensures !Covers(eqx, k, i)
    {
      if i < eqx[0] {
        if k > 0 {
          assert eqx[0] < eqx[k];
        }
      } else if k + 1 < |eqx| - 1 {
        assert eqx[k + 1] < eqx[|eqx| - 1];
      }
    }
  }

  /** Orbit numbers never decrease along the samples. */
  lemma NumbersMonotone(times: seq<int>, eqx: seq<nat>, reference: Reference, i: nat, j: nat)
    requires StrictlyIncreasing(eqx)
    requires OrbitNumbering(times, eqx, reference).Success?
    requires i <= j < |times|
    requires OrbitNumbering(times, eqx, reference).value[i].Some? && OrbitNumbering(times, eqx, reference).value[j].Some?
    ensures OrbitNumbering(times, eqx, reference).value[i].value <= OrbitNumbering(times, eqx, reference).value[j].value
  {
    var a, b := LastCovering(eqx, i, Pairs(eqx)).value, LastCovering(eqx, j, Pairs(eqx)).value;
    IndexOrder(eqx, a, b + 1);
  }

  /** A sample of segment k + 1 is numbered one more than a sample of segment k. */
  lemma AdjacentSegmentsDifferByOne(times: seq<int>, eqx: seq<nat>, reference: Reference, k: nat, i: nat, j: nat)
    requires StrictlyIncreasing(eqx)
    requires OrbitNumbering(times, eqx, reference).Success?
    requires k + 2 < |eqx| && i < |times| && j < |times|
    requires eqx[k] <= i < eqx[k + 1] && eqx[k + 1] <= j < eqx[k + 2]
    ensures var o := OrbitNumbering(times, eqx, reference).value; o[i].Some? && o[j].Some? && o[j].value == o[i].value + 1
  {
    SegmentNumber(times, eqx, reference, k, i);
    SegmentNumber(times, eqx, reference, k + 1, j);
  }

  /** No sample numbered below 0 falls on the reference day. */
  lemma NegativeOrbitsBeforeDay(times: seq<int>, eqx: seq<nat>, reference: Reference, i: nat)
    requires OrbitNumbering(times, eqx, reference).Success?
    requires i < |times|
    requires OrbitNumbering(times, eqx, reference).value[i].Some? && OrbitNumbering(times, eqx, reference).value[i].value < 0
    ensures DateOf(times[i]) != RefDate(reference)
  {
    var k := LastCovering(eqx, i, Pairs(eqx)).value;
    assert !SegmentHasDate(times, eqx, k, RefDate(reference));
  }

  /** Orbit 0 holds a sample of the reference day. */
  lemma OrbitZeroTouchesDay(times: seq<int>, eqx: seq<nat>, reference: Reference)
    requires StrictlyIncreasing(eqx)
    requires OrbitNumbering(times, eqx, reference).Success?
    ensures exists i :: (0 <= i < |times| && OrbitNumbering(times, eqx, reference).value[i] == Some(0)
      && DateOf(times[i]) == RefDate(reference))
  {
    var x := XingZero(times, eqx, RefDate(reference)).value;
    var i :| 0 <= i < |times| && Covers(eqx, x, i) && DateOf(times[i]) == RefDate(reference);
    SegmentNumber(times, eqx, reference, x, i);
  }

  // ---- Orbit start times

  /** The earliest time among the rows of orbit o, none when the orbit has no rows. */
  function MinTimeOf(rows: seq<Sample>, o: int): (m: Option<int>)
    ensures m.None? <==> forall i :: 0 <= i < |rows| ==> rows[i].orbit != Some(o)
    ensures m.Some? ==> (exists i :: 0 <= i < |rows| && rows[i].orbit == Some(o) && rows[i].time == m.value)
    ensures m.Some? ==> forall i :: 0 <= i < |rows| && rows[i].orbit == Some(o) ==> m.value <= rows[i].time
  {
    if rows == [] then None
    else
      var init, last := rows[..|rows| - 1], rows[|rows| - 1];
      var m := MinTimeOf(init, o);
      assert forall i :: 0 <= i < |init| ==> init[i] == rows[i];
      if last.orbit == Some(o) && (m.None? || last.time < m.value) then Some(last.time) else m
  }

  /** `_orbit_start_time`: every row gets the earliest time of its orbit; rows
      without an orbit number are left out of the grouping and get none. */
  function OrbitStartTime(rows: seq<Sample>): (r: seq<Option<int>>)
    ensures |r| == |rows|
    ensures forall i :: 0 <= i < |rows| ==> (r[i].None? <==> rows[i].orbit.None?)
    ensures forall i, j :: (0 <= i < |rows| && 0 <= j < |rows| && rows[i].orbit.Some? && rows[j].orbit == rows[i].orbit
      ==> r[i].value <= rows[j].time)
    ensures forall i :: 0 <= i < |rows| && rows[i].orbit.Some? ==>
      exists j :: 0 <= j < |rows| && rows[j].orbit == rows[i].orbit && rows[j].time == r[i].value
  {
    seq(|rows|, i requires 0 <= i < |rows| => if rows[i].orbit.None? then None else MinTimeOf(rows, rows[i].orbit.value))
  }

  // ---- Whole orbits of the day

  predicate OnDay(s: Sample, day: int) {
    DateOf(s.time) == day
  }

  /** A row that survives `dropna`: an orbit number and every other column present. */
  predicate Complete(s: Sample) {
    s.orbit.Some? && forall k :: 0 <= k < |s.values| ==> s.values[k].Some?
  }

  /** The orbit numbers present on the rows of the day, in row order. */
  function DayOrbitNumbers(rows: seq<Sample>, day: int): (o: seq<int>)
    ensures forall x :: x in o <==> exists i :: 0 <= i < |rows| && OnDay(rows[i], day) && rows[i].orbit == Some(x)
  {
    if rows == [] then []
    else
      var init, last := rows[..|rows| - 1], rows[|rows| - 1];
      assert forall i :: 0 <= i < |init| ==> init[i] == rows[i];
      DayOrbitNumbers(init, day) + (if OnDay(last, day) && last.orbit.Some? then [last.orbit.value] else [])
  }

  predicate Kept(s: Sample, lo: int, hi: int) {
    Complete(s) && lo <= s.orbit.value <= hi
  }

  /** The rows with an orbit number in [lo, hi] and no missing column, in row order. */
  function KeepBetween(rows: seq<Sample>, lo: int, hi: int): (kept: seq<Sample>)
    ensures forall x :: multiset(kept)[x] == if Kept(x, lo, hi) then multiset(rows)[x] else 0
  {
    if rows == [] then []
    else
      var init, last := rows[..|rows| - 1], rows[|rows| - 1];
      assert rows == init + [last];
      KeepBetween(init, lo, hi) + (if Kept(last, lo, hi) then [last] else [])
  }

  /** An orbit number lies between the least and the greatest orbit number seen on the day. */
  predicate WithinDayOrbits(rows: seq<Sample>, day: int, o: int) {
    (exists i :: 0 <= i < |rows| && OnDay(rows[i], day) && rows[i].orbit.Some? && rows[i].orbit.value <= o)
    && (exists i :: 0 <= i < |rows| && OnDay(rows[i], day) && rows[i].orbit.Some? && o <= rows[i].orbit.value)
  }

  /** The whole-orbit filter of `get_orbit_numbered_ssj_dataframe`: the rows of
      every orbit seen on the day, complete rows only, sorted by time. With no
      row on the day the minimum of an empty array raises ValueError; when the
      day's rows carry no orbit number the bounds are NaN and nothing is kept. */
  function WholeOrbitsOfDay(rows: seq<Sample>, day: int): (r: Result<seq<Sample>>)
    ensures r.Failure? <==> forall i :: 0 <= i < |rows| ==> !OnDay(rows[i], day)
    ensures r.Failure? ==> r.error == ValueError
    ensures r.Success? ==> SortedBy(r.value, TimeOf)
    ensures r.Success? ==> forall x :: (multiset(r.value)[x] ==
      if Complete(x) && WithinDayOrbits(rows, day, x.orbit.value) then multiset(rows)[x] else 0)
    ensures r.Success? ==> forall k :: 0 <= k < |r.value| ==> Complete(r.value[k])
  {
    if forall i | 0 <= i < |rows| :: !OnDay(rows[i], day) then Failure(ValueError)
    else
      var dayOrbits := Unique(DayOrbitNumbers(rows, day));
      if dayOrbits == [] then Success([])
      else
        var lo, hi := dayOrbits[0], dayOrbits[|dayOrbits| - 1];
        var sorted := SortByKey(KeepBetween(rows, lo, hi), TimeOf);
        KeptIffWithin(rows, day, dayOrbits);
        forall k | 0 <= k < |sorted|
          ensures Complete(sorted[k])
        {
          assert sorted[k] in multiset(sorted);
        }
        Success(sorted)
  }

  /** Between the bounds of the day's distinct orbit numbers means between some
      orbit number seen on the day and some other. */
  lemma KeptIffWithin(rows: seq<Sample>, day: int, dayOrbits: seq<int>)
    requires dayOrbits == Unique(DayOrbitNumbers(rows, day)) && dayOrbits != []
    ensures forall x :: Kept(x, dayOrbits[0], dayOrbits[|dayOrbits| - 1]) <==> Complete(x) && WithinDayOrbits(rows, day, x.orbit.value)
  {
    var lo, hi := dayOrbits[0], dayOrbits[|dayOrbits| - 1];
    DayOrbitBounds(dayOrbits, DayOrbitNumbers(rows, day));
    forall x | Complete(x)
      ensures lo <= x.orbit.value <= hi <==> WithinDayOrbits(rows, day, x.orbit.value)
    {
      var o := x.orbit.value;
      if lo <= o <= hi {
        assert lo in DayOrbitNumbers(rows, day) && hi in DayOrbitNumbers(rows, day);
      }
      if WithinDayOrbits(rows, day, o) {
        var i :| 0 <= i < |rows| && OnDay(rows[i], day) && rows[i].orbit.Some? && rows[i].orbit.value <= o;
        var j :| 0 <= j < |rows| && OnDay(rows[j], day) && rows[j].orbit.Some? && o <= rows[j].orbit.value;
        assert rows[i].orbit.value in DayOrbitNumbers(rows, day);
        assert rows[j].orbit.value in DayOrbitNumbers(rows, day);
      }
    }
  }

  /** The first and last of the sorted distinct values bound every value. */
  lemma DayOrbitBounds(u: seq<int>, s: seq<int>)
    requires StrictlyIncreasing(u) && |u| > 0 && forall x :: x in u <==> x in s
    ensures forall x :: x in s ==> u[0] <= x <= u[|u| - 1]
    ensures u[0] in s && u[|u| - 1] in s
  {
    assert u[0] in u && u[|u| - 1] in u;
    forall x | x in s
      ensures u[0] <= x <= u[|u| - 1]
    {
      var i :| 0 <= i < |u| && u[i] == x;
      assert i == 0 || u[0] < u[i];
      assert i == |u| - 1 || u[i] < u[|u| - 1];
    }
  }

  function StartValue(t: Option<int>): Option<real> {
    if t.None? then None else Some(t.value as real)
  }

  /** The stacked rows with their orbit numbers. */
  function WithOrbits(df: seq<Reading>, orbits: seq<Option<int>>): (rows: seq<Sample>)
    requires |orbits| == |df|
    ensures |rows| == |df|
  {
    seq(|df|, i requires 0 <= i < |df| => Sample(df[i].time, orbits[i], []))
  }

  /** The stacked rows with the columns `orbit_number`, `orbit_start_time` and `dglats` added. */
  function WithColumns(df: seq<Reading>, orbits: seq<Option<int>>, starts: seq<Option<int>>, dglats: seq<real>): (rows: seq<Sample>)
    requires |orbits| == |df| && |starts| == |df| && |dglats| == |df|
    ensures |rows| == |df|
  {
    seq(|df|, i requires 0 <= i < |df| =>
      Sample(df[i].time, orbits[i], [Some(df[i].glat)] + df[i].values + [StartValue(starts[i]), Some(dglats[i])]))
  }

  /** The stacked rows once numbered: the orbit numbers, each orbit's start
      time and the latitude derivative added as columns. */
  function NumberedRows(df: seq<Reading>, orbits: seq<Option<int>>): (rows: seq<Sample>)
    requires |df| >= 2 && |orbits| == |df|
    ensures |rows| == |df|
    ensures forall i :: 0 <= i < |df| ==> rows[i].time == df[i].time && rows[i].orbit == orbits[i]
  {
    var starts := OrbitStartTime(WithOrbits(df, orbits));
    var dglats := Derivative(Glats(df)).value;
    WithColumns(df, orbits, starts, dglats)
  }

  /** `get_orbit_numbered_ssj_dataframe` with the three days' rows and the pass
      detector's boundary indices as inputs: stack the days, number the orbits
      around the datetime `dt`, add each orbit's start time and the latitude
      derivative as columns, and keep the day's whole orbits. The errors are
      those of the day check, then the RuntimeError of the numbering; once the
      numbering succeeds the day has rows, so the result is the day's whole
      orbits, complete rows only, sorted by time. */
  function OrbitNumberedDay(prev: seq<Reading>, curr: seq<Reading>, next: seq<Reading>, eqx: seq<nat>, dt: int): (r: Result<seq<Sample>>)
    ensures ConsecutiveDays(prev, curr, next).Failure? ==> r == Failure(ConsecutiveDays(prev, curr, next).error)
    ensures ConsecutiveDays(prev, curr, next).Success? && OrbitNumbering(Times(prev + curr + next), eqx, AtTime(dt)).Failure?
      ==> r == Failure(RuntimeError)
    ensures var df := prev + curr + next; var numbering := OrbitNumbering(Times(df), eqx, AtTime(dt));
      ConsecutiveDays(prev, curr, next).Success? && numbering.Success? ==>
        var rows := NumberedRows(df, numbering.value);
        r.Success? && SortedBy(r.value, TimeOf)
        && (forall k :: 0 <= k < |r.value| ==> Complete(r.value[k]))
        && (forall x :: multiset(r.value)[x] ==
                         if Complete(x) && WithinDayOrbits(rows, DateOf(dt), x.orbit.value) then multiset(rows)[x] else 0)
  {
    var df :- ConsecutiveDays(prev, curr, next);
    var orbits :- OrbitNumbering(Times(df), eqx, AtTime(dt));
    var rows := NumberedRows(df, orbits);
    DayHasRows(df, eqx, dt, orbits, rows);
    WholeOrbitsOfDay(rows, DateOf(dt))
  }

  /** A numbering exists only when some row is on the reference day. */
  lemma DayHasRows(df: seq<Reading>, eqx: seq<nat>, dt: int, orbits: seq<Option<int>>, rows: seq<Sample>)
    requires |df| >= 2 && OrbitNumbering(Times(df), eqx, AtTime(dt)) == Success(orbits)
    requires rows == NumberedRows(df, orbits)
    ensures exists i :: 0 <= i < |rows| && OnDay(rows[i], DateOf(dt))
  {
    var x := XingZero(Times(df), eqx, DateOf(dt)).value;
    var i :| 0 <= i < |df| && Covers(eqx, x, i) && DateOf(Times(df)[i]) == DateOf(dt);
    assert OnDay(rows[i], DateOf(dt));
  }

  /** With no row on the day of `dt` the numbering finds no segment, so the
      call fails with the RuntimeError of `_number_orbits` and the ValueError
      of the empty minimum is never reached. */
  lemma NoDayIsRuntimeError(prev: seq<Reading>, curr: seq<Reading>, next: seq<Reading>, eqx: seq<nat>, dt: int)
    requires ConsecutiveDays(prev, curr, next).Success?
    requires forall i :: 0 <= i < |prev + curr + next| ==> DateOf((prev + curr + next)[i].time) != DateOf(dt)
    ensures OrbitNumberedDay(prev, curr, next, eqx, dt) == Failure(RuntimeError)
  {
    var df := prev + curr + next;
    if XingZero(Times(df), eqx, DateOf(dt)).Some? {
      assert false;
    }
  }

}
