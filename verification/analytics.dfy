/**
 * The figures of the analytics page over the loaded incidents: the totals and
 * the resolution rate, the tallies by type label and by severity, the hourly
 * distribution with its peak hour, and the per-camera counts. The calendar day
 * and the local hour of a timestamp depend on the time zone, so both are inputs.
 */
module Analytics {
  import opened Wrappers
  import opened JsText
  import Seqs
  import Common
  import opened Store
  import IncidentsPage

  // ---------------------------------------------------------------------------
  // Tallies: `reduce((acc, x) => { acc[key(x)] = (acc[key(x)] || 0) + 1 }, {})`
  // ---------------------------------------------------------------------------

  /** One reduce step: bump the count of `k`, adding it with count 1 at the end if new. */
  function TallyInto<K(==)>(acc: seq<(K, nat)>, k: K): (r: seq<(K, nat)>)
    requires Common.DistinctKeys(acc)
    ensures Common.DistinctKeys(r)
  {
    if k in Common.Keys(acc) then
      var i := Common.KeyIndex(acc, k);
      acc[i := (k, acc[i].1 + 1)]
    else
      assert forall i :: 0 <= i < |acc| ==> acc[i].0 == Common.Keys(acc)[i];
      acc + [(k, 1)]
  }

  /** The tally object as (key, count) pairs in the order the keys are first assigned. */
  function Tally<T, K(==)>(xs: seq<T>, keyFn: T -> K): (r: seq<(K, nat)>)
    ensures Common.DistinctKeys(r)
  {
    if xs == [] then []
    else TallyInto(Tally(xs[..|xs| - 1], keyFn), keyFn(xs[|xs| - 1]))
  }

  /** Sum of the counts of a tally. */
  function TallyTotal<K>(t: seq<(K, nat)>): nat
  {
    if t == [] then 0 else t[0].1 + TallyTotal(t[1..])
  }

  /** The tally agrees entry by entry with the group sizes of `groupBy` on the same key. */
  lemma {:induction false} TallyIsGroupSizes<T, K>(xs: seq<T>, keyFn: T -> K)
    ensures |Tally(xs, keyFn)| == |Common.GroupBy(xs, keyFn)|
    ensures forall i :: 0 <= i < |Tally(xs, keyFn)| ==>
      Tally(xs, keyFn)[i] == (Common.GroupBy(xs, keyFn)[i].0, |Common.GroupBy(xs, keyFn)[i].1|)
  {
    if xs != [] {
      var init := xs[..|xs| - 1];
      var k := keyFn(xs[|xs| - 1]);
      TallyIsGroupSizes(init, keyFn);
      var t := Tally(init, keyFn);
      var g := Common.GroupBy(init, keyFn);
      assert forall i :: 0 <= i < |t| ==> Common.Keys(t)[i] == Common.Keys(g)[i];
      assert Common.Keys(t) == Common.Keys(g);
      if k in Common.Keys(t) {
        var i := Common.KeyIndex(t, k);
        var j := Common.KeyIndex(g, k);
        assert i == j;
      }
    }
  }

  lemma {:induction false} TotalOfGroupSizes<K, T>(t: seq<(K, nat)>, g: seq<(K, seq<T>)>)
    requires |t| == |g|
    requires forall i :: 0 <= i < |t| ==> t[i].1 == |g[i].1|
    ensures TallyTotal(t) == Common.GroupSizes(g)
  {
    if t != [] {
      TotalOfGroupSizes(t[1..], g[1..]);
    }
  }

  /** The counts of a tally add up to the number of items tallied. */
  lemma TallySum<T, K>(xs: seq<T>, keyFn: T -> K)
    ensures TallyTotal(Tally(xs, keyFn)) == |xs|
  {
    TallyIsGroupSizes(xs, keyFn);
    TotalOfGroupSizes(Tally(xs, keyFn), Common.GroupBy(xs, keyFn));
    Common.GroupBySize(xs, keyFn);
  }

  /**
   * The keys of a tally are the distinct keys of the items in order of first
   * appearance, and each count is the number of items with that key.
   */
  lemma TallyCounts<T, K>(xs: seq<T>, keyFn: T -> K)
    ensures Common.Keys(Tally(xs, keyFn)) == Common.Unique(Common.MapKeys(xs, keyFn))
    ensures forall i :: 0 <= i < |Tally(xs, keyFn)| ==>
      Tally(xs, keyFn)[i].1 == Seqs.CountIf(xs, Common.KeyIs(keyFn, Tally(xs, keyFn)[i].0))
  {
    var t := Tally(xs, keyFn);
    var g := Common.GroupBy(xs, keyFn);
    TallyIsGroupSizes(xs, keyFn);
    Common.GroupByKeys(xs, keyFn);
    Common.GroupByContents(xs, keyFn);
    assert forall i :: 0 <= i < |t| ==> Common.Keys(t)[i] == Common.Keys(g)[i];
    assert Common.Keys(t) == Common.Keys(g);
    forall i | 0 <= i < |t|
      ensures t[i].1 == Seqs.CountIf(xs, Common.KeyIs(keyFn, t[i].0))
    {
      Seqs.FilterLength(xs, Common.KeyIs(keyFn, t[i].0));
    }
  }

  /** The count a tally holds for `k`, 0 when `k` is not a key (`acc[k] || 0`). */
  function TallyOf<K(==)>(t: seq<(K, nat)>, k: K): nat
  {
    if k in Common.Keys(t) then t[Common.KeyIndex(t, k)].1 else 0
  }

  /** Looking a key up in a tally gives the number of items with that key, present or not. */
  lemma TallyOfCounts<T, K>(xs: seq<T>, keyFn: T -> K, k: K)
    ensures TallyOf(Tally(xs, keyFn), k) == Seqs.CountIf(xs, Common.KeyIs(keyFn, k))
  {
    TallyCounts(xs, keyFn);
    if k !in Common.Keys(Tally(xs, keyFn)) {
      Common.NoItemWithNewKey(xs, keyFn, k);
      Seqs.FilterLength(xs, Common.KeyIs(keyFn, k));
    }
  }

  // ---------------------------------------------------------------------------
  // Type labels: `type.replace(/_/g, ' ').replace(/\b\w/g, l => l.toUpperCase())`
  // ---------------------------------------------------------------------------

  /** A character of the regular-expression class `\w`. */
  predicate IsWordChar(c: char)
  {
    'a' <= c <= 'z' || 'A' <= c <= 'Z' || '0' <= c <= '9' || c == '_'
  }

  function SpaceUnderscores(s: string): (r: string)
    ensures |r| == |s|
    ensures forall i :: 0 <= i < |s| ==> r[i] == if s[i] == '_' then ' ' else s[i]
  {
    seq(|s|, i requires 0 <= i < |s| => if s[i] == '_' then ' ' else s[i])
  }

  /** `\b\w` matches at `i`: a word character with no word character before it. */
  predicate StartsWord(s: string, i: nat)
    requires i < |s|
  {
    IsWordChar(s[i]) && (i == 0 || !IsWordChar(s[i - 1]))
  }

  function CapitalizeWords(s: string): (r: string)
    ensures |r| == |s|
  {
    seq(|s|, i requires 0 <= i < |s| => if StartsWord(s, i) then UpperChar(s[i]) else s[i])
  }

  /** The label a type is shown and tallied under. */
  function TypeLabel(incidentType: string): (r: string)
    ensures |r| == |incidentType|
    ensures '_' !in r
    ensures forall i :: 0 <= i < |r| && StartsWord(SpaceUnderscores(incidentType), i) ==> !('a' <= r[i] <= 'z')
    ensures forall i :: 0 <= i < |r| ==>
      LowerChar(r[i]) == LowerChar(if incidentType[i] == '_' then ' ' else incidentType[i])
    ensures forall i :: 0 <= i < |r| && StartsWord(SpaceUnderscores(incidentType), i) ==>
      r[i] == UpperChar(incidentType[i])
    ensures forall i :: 0 <= i < |r| && !StartsWord(SpaceUnderscores(incidentType), i) ==>
      r[i] == if incidentType[i] == '_' then ' ' else incidentType[i]
  {
    var spaced := SpaceUnderscores(incidentType);
    var r := CapitalizeWords(spaced);
    assert forall i :: 0 <= i < |r| ==> r[i] == if StartsWord(spaced, i) then UpperChar(spaced[i]) else spaced[i];
    r
  }

  lemma UpperKeepsWordChar(c: char)
    ensures IsWordChar(UpperChar(c)) == IsWordChar(c)
    ensures UpperChar(UpperChar(c)) == UpperChar(c)
  {
  }

  /** Labelling a label changes nothing. */
  lemma TypeLabelIdempotent(incidentType: string)
    ensures TypeLabel(TypeLabel(incidentType)) == TypeLabel(incidentType)
  {
    var spaced := SpaceUnderscores(incidentType);
    var r := TypeLabel(incidentType);
    assert r == CapitalizeWords(spaced);
    assert SpaceUnderscores(r) == r;
    forall i | 0 <= i < |r|
      ensures IsWordChar(r[i]) == IsWordChar(spaced[i])
    {
      UpperKeepsWordChar(spaced[i]);
    }
    forall i | 0 <= i < |r|
      ensures CapitalizeWords(r)[i] == r[i]
    {
      UpperKeepsWordChar(spaced[i]);
      assert StartsWord(r, i) == StartsWord(spaced, i);
    }
  }

  // ---------------------------------------------------------------------------
  // Breakdowns
  // ---------------------------------------------------------------------------

  function TypeLabelOf(): Incident -> string
  {
    (x: Incident) => TypeLabel(x.incidentType)
  }

  function SeverityOf(): Incident -> string
  {
    (x: Incident) => x.severity
  }

  function CameraIdOf(): Incident -> Option<int>
  {
    (x: Incident) => x.cameraId
  }

  /** The incident-type breakdown: one entry per label, the counts adding up to the total. */
  function TypeBreakdown(xs: seq<Incident>): (t: seq<(string, nat)>)
    ensures Common.DistinctKeys(t) && TallyTotal(t) == |xs|
    ensures forall i :: 0 <= i < |t| ==> t[i].1 == Seqs.CountIf(xs, Common.KeyIs(TypeLabelOf(), t[i].0))
  {
    TallySum(xs, TypeLabelOf());
    TallyCounts(xs, TypeLabelOf());
    Tally(xs, TypeLabelOf())
  }

  /** The severity breakdown: one entry per exact severity string, the counts adding up to the total. */
  function SeverityBreakdown(xs: seq<Incident>): (t: seq<(string, nat)>)
    ensures Common.DistinctKeys(t) && TallyTotal(t) == |xs|
    ensures Common.Keys(t) == Common.Unique(Common.MapKeys(xs, SeverityOf()))
    ensures forall i :: 0 <= i < |t| ==> t[i].1 == Seqs.CountIf(xs, Common.KeyIs(SeverityOf(), t[i].0))
  {
    TallySum(xs, SeverityOf());
    TallyCounts(xs, SeverityOf());
    Tally(xs, SeverityOf())
  }

  // ---------------------------------------------------------------------------
  // Totals and the resolution rate
  // ---------------------------------------------------------------------------

  /** The rate card: the text '0' with no incidents, else the percentage `toFixed(1)` prints. */
  datatype Rate = NoIncidents | Percent(value: real)

  function ResolutionRate(xs: seq<Incident>): (r: Rate)
    ensures r.NoIncidents? <==> |xs| == 0
    ensures r.Percent? ==> IsShare(r.value, |Seqs.Filter(xs, IsResolved())|, |xs|)
    ensures r.Percent? ==> 0.0 <= r.value <= 100.0
    ensures r.Percent? ==> (r.value == 100.0 <==> forall i :: 0 <= i < |xs| ==> xs[i].resolved)
  {
    if |xs| > 0 then
      AllResolvedCount(xs);
      Percent(Percentage(|Seqs.Filter(xs, IsResolved())|, |xs|))
    else NoIncidents
  }

  lemma AllResolvedCount(xs: seq<Incident>)
    ensures |Seqs.Filter(xs, IsResolved())| == |xs| <==> forall i :: 0 <= i < |xs| ==> xs[i].resolved
  {
    Seqs.FilterLength(xs, IsResolved());
    Seqs.CountSplit(xs, IsResolved(), IsUnresolved());
    Seqs.CountZero(xs, IsUnresolved());
  }

  /** `v` is the percentage `part` makes of `total`. */
  predicate IsShare(v: real, part: nat, total: nat)
  {
    v * (total as real) == 100.0 * (part as real)
  }

  /** `part / total * 100`. */
  function Percentage(part: nat, total: nat): (v: real)
    requires 0 < total && part <= total
    ensures IsShare(v, part, total)
    ensures 0.0 <= v <= 100.0
    ensures v == 100.0 <==> part == total
  {
    var q := (part as real) / (total as real);
    assert q * (total as real) == part as real;
    assert q <= 1.0;
    q * 100.0
  }

  datatype Totals = Totals(total: nat, today: nat, critical: nat, resolved: nat, rate: Rate)

  /** Incidents whose calendar day, under `dayOf`, is the day of `now`. */
  function OnDayOf(dayOf: int -> int, now: int): Incident -> bool
  {
    (x: Incident) => dayOf(x.timestamp) == dayOf(now)
  }

  /** The four key metrics. */
  function KeyMetrics(xs: seq<Incident>, dayOf: int -> int, now: int): (m: Totals)
    ensures m.total == |xs|
    ensures m.today == |Seqs.Filter(xs, OnDayOf(dayOf, now))| && m.today <= m.total
    ensures m.critical == |Seqs.Filter(xs, IncidentsPage.IsCritical())| && m.critical <= m.total
    ensures m.resolved == |Seqs.Filter(xs, IsResolved())| && m.resolved <= m.total
    ensures m.rate.NoIncidents? <==> m.total == 0
    ensures m.rate.Percent? ==> IsShare(m.rate.value, m.resolved, m.total)
  {
    Totals(|xs|, |Seqs.Filter(xs, OnDayOf(dayOf, now))|, |Seqs.Filter(xs, IncidentsPage.IsCritical())|,
      |Seqs.Filter(xs, IsResolved())|, ResolutionRate(xs))
  }

  // ---------------------------------------------------------------------------
  // Hourly distribution and peak hour
  // ---------------------------------------------------------------------------

  /** A local hour of the day, as `getHours()` returns it. */
  type Hour = h: int | 0 <= h < 24

  datatype HourCount = HourCount(hour: int, count: nat)

  function AtHour(hourOf: int -> Hour, h: int): Incident -> bool
  {
    (x: Incident) => hourOf(x.timestamp) == h
  }

  function BeforeHour(hourOf: int -> Hour, h: int): Incident -> bool
  {
    (x: Incident) => hourOf(x.timestamp) < h
  }

  /** `hourlyData`: for each hour 0..23, the number of incidents in that hour. */
  function HourlyData(xs: seq<Incident>, hourOf: int -> Hour): (r: seq<HourCount>)
    ensures |r| == 24
    ensures forall h :: 0 <= h < 24 ==> r[h].hour == h && r[h].count == |Seqs.Filter(xs, AtHour(hourOf, h))|
  {
    assert forall h :: 0 <= h < 24 ==> |Seqs.Filter(xs, AtHour(hourOf, h))| == Seqs.CountIf(xs, AtHour(hourOf, h)) by {
      forall h | 0 <= h < 24 {
        Seqs.FilterLength(xs, AtHour(hourOf, h));
      }
    }
    seq(24, h requires 0 <= h < 24 => HourCount(h, Seqs.CountIf(xs, AtHour(hourOf, h))))
  }

  /** Sum of the counts of the first entries. */
  function HoursTotal(data: seq<HourCount>): nat
  {
    if data == [] then 0 else HoursTotal(data[..|data| - 1]) + data[|data| - 1].count
  }

  lemma {:induction false} HoursPrefixTotal(xs: seq<Incident>, hourOf: int -> Hour, n: nat)
    requires n <= 24
    ensures HoursTotal(HourlyData(xs, hourOf)[..n]) == Seqs.CountIf(xs, BeforeHour(hourOf, n))
  {
    var data := HourlyData(xs, hourOf);
    if n == 0 {
      Seqs.CountZero(xs, BeforeHour(hourOf, 0));
    } else {
      HoursPrefixTotal(xs, hourOf, n - 1);
      assert data[..n][..n - 1] == data[..n - 1];
      Seqs.FilterLength(xs, AtHour(hourOf, n - 1));
      Seqs.CountUnion(xs, BeforeHour(hourOf, n - 1), AtHour(hourOf, n - 1), BeforeHour(hourOf, n));
    }
  }

  /** The hourly counts add up to the number of incidents. */
  lemma HourlySum(xs: seq<Incident>, hourOf: int -> Hour)
    ensures HoursTotal(HourlyData(xs, hourOf)) == |xs|
  {
    HoursPrefixTotal(xs, hourOf, 24);
    assert HourlyData(xs, hourOf)[..24] == HourlyData(xs, hourOf);
    Seqs.CountAll(xs, BeforeHour(hourOf, 24));
  }

  /**
   * `hourlyData.reduce((max, curr) => curr.count > max.count ? curr : max, {hour: 0, count: 0})`:
   * the first entry with the largest count, or `{0, 0}` when no count is positive.
   */
  function PeakHour(data: seq<HourCount>): (p: HourCount)
    ensures forall i :: 0 <= i < |data| ==> data[i].count <= p.count
    ensures p.count == 0 ==> p == HourCount(0, 0)
    ensures p.count > 0 ==>
      (exists i :: 0 <= i < |data| && data[i] == p && (forall j :: 0 <= j < i ==> data[j].count < p.count))
  {
    if data == [] then HourCount(0, 0)
    else
      var init := data[..|data| - 1];
      var best := PeakHour(init);
      var curr := data[|data| - 1];
      assert forall i :: 0 <= i < |init| ==> init[i] == data[i];
      if curr.count > best.count then
        assert forall j :: 0 <= j < |data| - 1 ==> data[j].count < curr.count;
        curr
      else
        best
  }

  /** No hour has a positive count exactly when there are no incidents. */
  lemma HourlyAllZero(xs: seq<Incident>, hourOf: int -> Hour)
    ensures (forall h :: 0 <= h < 24 ==> HourlyData(xs, hourOf)[h].count == 0) <==> xs == []
  {
    var data := HourlyData(xs, hourOf);
    HourlySum(xs, hourOf);
    if forall h :: 0 <= h < 24 ==> data[h].count == 0 {
      ZeroTotal(data, 24);
      assert data[..24] == data;
    }
  }

  lemma {:induction false} ZeroTotal(data: seq<HourCount>, n: nat)
    requires n <= |data|
    requires forall h :: 0 <= h < n ==> data[h].count == 0
    ensures HoursTotal(data[..n]) == 0
  {
    if n > 0 {
      assert data[..n][..n - 1] == data[..n - 1];
      ZeroTotal(data, n - 1);
    }
  }

  /**
   * The peak hour of the hourly data is the earliest hour with the most
   * incidents, and it is `{0, 0}` exactly when there are no incidents.
   */
  lemma PeakOfHourly(xs: seq<Incident>, hourOf: int -> Hour)
    ensures var p := PeakHour(HourlyData(xs, hourOf));
      0 <= p.hour < 24 &&
      p.count == |Seqs.Filter(xs, AtHour(hourOf, p.hour))| &&
      (forall h :: 0 <= h < 24 ==> |Seqs.Filter(xs, AtHour(hourOf, h))| <= p.count) &&
      (p.count > 0 ==> forall h :: 0 <= h < p.hour ==> |Seqs.Filter(xs, AtHour(hourOf, h))| < p.count) &&
      (p == HourCount(0, 0) <==> xs == [])
  {
    var data := HourlyData(xs, hourOf);
    var p := PeakHour(data);
    HourlyAllZero(xs, hourOf);
    if p.count > 0 {
      var i :| 0 <= i < |data| && data[i] == p && forall j :: 0 <= j < i ==> data[j].count < p.count;
      assert p.hour == i;
    } else {
      assert data[0].count == 0;
    }
  }

  // ---------------------------------------------------------------------------
  // Per-camera counts
  // ---------------------------------------------------------------------------

  /** `incidents.filter(i => i.cameraId === camera.id).length` for each camera card. */
  function CameraIncidentCounts(cameras: seq<Camera>, xs: seq<Incident>): (r: seq<nat>)
    ensures |r| == |cameras|
    ensures forall i :: 0 <= i < |cameras| ==> r[i] == TallyOf(Tally(xs, CameraIdOf()), Some(cameras[i].id))
  {
    seq(|cameras|, i requires 0 <= i < |cameras| => CameraIncidentCount(xs, cameras[i].id))
  }

  function CameraIncidentCount(xs: seq<Incident>, id: int): (n: nat)
    ensures n == TallyOf(Tally(xs, CameraIdOf()), Some(id))
  {
    Seqs.FilterLength(xs, Common.KeyIs(CameraIdOf(), Some(id)));
    TallyOfCounts(xs, CameraIdOf(), Some(id));
    |Seqs.Filter(xs, Common.KeyIs(CameraIdOf(), Some(id)))|
  }

  // ---------------------------------------------------------------------------
  // The page's load
  // ---------------------------------------------------------------------------

  /**
   * The page loads with `fetchIncidents(true)`, so after a successful load
   * every incident it counts is resolved and the rate reads 100 whenever it
   * reads anything but '0'.
   */
  lemma LoadedRateIsFull(s: State, table: seq<Incident>)
    ensures var r := ResolutionRate(IncidentsPage.LoadIncidents(s, table, false).incidents);
      r.NoIncidents? || r == Percent(100.0)
  {
  }

  /** Loading every incident instead gives the rate of the whole table. */
  lemma LoadedAllRate(s: State, table: seq<Incident>)
    ensures ResolutionRate(IncidentsPage.LoadAllIncidents(s, table, false).incidents) == ResolutionRate(table)
  {
    var loaded := IncidentsPage.LoadAllIncidents(s, table, false).incidents;
    assert |loaded| == |multiset(loaded)| == |multiset(table)| == |table|;
    Seqs.CountMultiset(loaded, table, IsResolved());
    Seqs.FilterLength(loaded, IsResolved());
    Seqs.FilterLength(table, IsResolved());
  }
}
