/**
 * The server handler behind `GET /api/incidents`: the optional `resolved`
 * query parameter becomes a filter on the table, and the rows come back
 * newest first. The database is a table of rows (each already carrying its
 * camera) plus a flag saying whether the query failed.
 */
module IncidentsRoute {
  import opened Wrappers
  import opened Store
  import Seqs

  /** The filter a `resolved` parameter selects: absent means every row. */
  function ResolvedFilter(param: Option<string>): Incident -> bool
  {
    (x: Incident) => param.None? || x.resolved == (param.value == "true")
  }

  predicate SortedNewestFirst(xs: seq<Incident>)
  {
    forall i, j :: 0 <= i < j < |xs| ==> xs[i].timestamp >= xs[j].timestamp
  }

  /** Inserts `x` into a newest-first list, in front of the entries that are not newer. */
  function InsertByTimestamp(x: Incident, ys: seq<Incident>): (r: seq<Incident>)
    requires SortedNewestFirst(ys)
    ensures SortedNewestFirst(r)
    ensures |r| == |ys| + 1
    ensures r[0] == x || (ys != [] && r[0] == ys[0])
  {
    if ys == [] || ys[0].timestamp <= x.timestamp then [x] + ys
    else
      var rest := InsertByTimestamp(x, ys[1..]);
      ConsSorted(ys[0], rest);
      [ys[0]] + rest
  }

  /** Inserting adds exactly `x` to the entries. */
  lemma {:induction false} InsertAddsOne(x: Incident, ys: seq<Incident>)
    requires SortedNewestFirst(ys)
    ensures multiset(InsertByTimestamp(x, ys)) == multiset(ys) + multiset{x}
  {
    if !(ys == [] || ys[0].timestamp <= x.timestamp) {
      InsertAddsOne(x, ys[1..]);
      assert ys == [ys[0]] + ys[1..];
    }
  }

  /** An entry no older than the head of a newest-first list can go in front of it. */
  lemma ConsSorted(y: Incident, rest: seq<Incident>)
    requires SortedNewestFirst(rest) && rest != [] && y.timestamp >= rest[0].timestamp
    ensures SortedNewestFirst([y] + rest)
  {
    var r := [y] + rest;
    forall i, j | 0 <= i < j < |r|
      ensures r[i].timestamp >= r[j].timestamp
    {
      if i == 0 {
        assert r[j] == rest[j - 1];
        assert rest[0].timestamp >= rest[j - 1].timestamp;
      } else {
        assert r[i] == rest[i - 1] && r[j] == rest[j - 1];
      }
    }
  }

  /** `orderBy: { timestamp: 'desc' }` (rows with equal timestamps keep their table order). */
  function SortByTimestampDesc(xs: seq<Incident>): (r: seq<Incident>)
    ensures SortedNewestFirst(r)
    ensures multiset(r) == multiset(xs)
  {
    if xs == [] then []
    else
      assert xs == [xs[0]] + xs[1..];
      InsertAddsOne(xs[0], SortByTimestampDesc(xs[1..]));
      InsertByTimestamp(xs[0], SortByTimestampDesc(xs[1..]))
  }

  datatype Response =
    | IncidentsJson(status: int, incidents: seq<Incident>)
    | ErrorJson(status: int, error: string)

  /** `GET /api/incidents?resolved=...` over the table; `queryFails` is a database error. */
  function GetIncidents(table: seq<Incident>, resolvedParam: Option<string>, queryFails: bool): (r: Response)
    ensures queryFails <==> r.ErrorJson?
    ensures r.ErrorJson? ==> r.status == 500 && r.error == "Failed to fetch incidents"
    ensures r.IncidentsJson? ==> r.status == 200 && SortedNewestFirst(r.incidents)
    ensures r.IncidentsJson? ==> multiset(r.incidents) == multiset(Seqs.Filter(table, ResolvedFilter(resolvedParam)))
    ensures r.IncidentsJson? && resolvedParam == Some("true") ==>
      forall i :: 0 <= i < |r.incidents| ==> r.incidents[i].resolved
    ensures r.IncidentsJson? && resolvedParam.Some? && resolvedParam != Some("true") ==>
      forall i :: 0 <= i < |r.incidents| ==> !r.incidents[i].resolved
  {
    if queryFails then ErrorJson(500, "Failed to fetch incidents")
    else
      var filtered := Seqs.Filter(table, ResolvedFilter(resolvedParam));
      var sorted := SortByTimestampDesc(filtered);
      PermutationKeeps(sorted, filtered, ResolvedFilter(resolvedParam));
      IncidentsJson(200, sorted)
  }

  /** A rearrangement of elements that all satisfy `p` has only elements satisfying `p`. */
  lemma PermutationKeeps(xs: seq<Incident>, ys: seq<Incident>, p: Incident -> bool)
    requires multiset(xs) == multiset(ys)
    requires forall i :: 0 <= i < |ys| ==> p(ys[i])
    ensures forall i :: 0 <= i < |xs| ==> p(xs[i])
  {
    forall i | 0 <= i < |xs|
      ensures p(xs[i])
    {
      assert xs[i] in multiset(ys);
    }
  }

  /** Without a `resolved` parameter every row of the table is returned. */
  lemma NoParamReturnsAll(table: seq<Incident>)
    ensures multiset(GetIncidents(table, None, false).incidents) == multiset(table)
  {
    Seqs.FilterAll(table, ResolvedFilter(None));
  }

  /** Any value other than `true` ("false", "1", "") selects exactly the unresolved rows. */
  lemma OtherValuesSelectUnresolved(table: seq<Incident>, v: string)
    requires v != "true"
    ensures multiset(GetIncidents(table, Some(v), false).incidents)
            == multiset(Seqs.Filter(table, ResolvedFilter(Some("false"))))
  {
    assert ResolvedFilter(Some(v)) == ResolvedFilter(Some("false"));
  }
}
