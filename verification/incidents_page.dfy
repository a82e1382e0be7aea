/**
 * The incidents page: what it loads, the search/status/severity filter it
 * applies to the store's incidents, and its summary counts.
 */
module IncidentsPage {
  import opened Wrappers
  import opened JsText
  import Seqs
  import opened Store
  import IncidentsRoute

  /** The page's filter controls: search text, status ('all', 'active', 'resolved') and severity ('all' or a level). */
  datatype Filters = Filters(search: string, status: string, severity: string)

  const DefaultFilters := Filters("", "all", "all")

  /** Case-insensitive substring match of the search text in the description or the type. */
  predicate MatchesSearch(x: Incident, term: string)
  {
    Includes(Lower(x.description), Lower(term)) || Includes(Lower(x.incidentType), Lower(term))
  }

  predicate MatchesStatus(x: Incident, status: string)
  {
    status == "all" || (status == "active" && !x.resolved) || (status == "resolved" && x.resolved)
  }

  /** The severity control is compared, as chosen, against the lower-cased severity. */
  predicate MatchesSeverity(x: Incident, severity: string)
  {
    severity == "all" || Lower(x.severity) == severity
  }

  function Matches(f: Filters): Incident -> bool
  {
    (x: Incident) => MatchesSearch(x, f.search) && MatchesStatus(x, f.status) && MatchesSeverity(x, f.severity)
  }

  /** `filteredIncidents`: the incidents passing all three controls, in store order. */
  function FilteredIncidents(xs: seq<Incident>, f: Filters): (r: seq<Incident>)
    ensures Seqs.IsSubseq(r, xs)
    ensures forall i :: 0 <= i < |r| ==>
      MatchesSearch(r[i], f.search) && MatchesStatus(r[i], f.status) && MatchesSeverity(r[i], f.severity)
    ensures forall i :: 0 <= i < |xs| ==>
      (MatchesSearch(xs[i], f.search) && MatchesStatus(xs[i], f.status) && MatchesSeverity(xs[i], f.severity) ==> xs[i] in r)
    ensures |r| == Seqs.CountIf(xs, Matches(f))
  {
    Seqs.FilterIsSubseq(xs, Matches(f));
    Seqs.FilterLength(xs, Matches(f));
    Seqs.Filter(xs, Matches(f))
  }

  /** Every string includes the empty string. */
  lemma IncludesEmpty(s: string)
    ensures Includes(s, "")
  {
    assert StartsWith(s, "");
  }

  /** With an empty search and both selectors on 'all', the page lists every incident. */
  lemma DefaultFiltersKeepAll(xs: seq<Incident>)
    ensures FilteredIncidents(xs, DefaultFilters) == xs
  {
    forall i | 0 <= i < |xs| ensures Matches(DefaultFilters)(xs[i]) {
      assert Lower("") == "";
      IncludesEmpty(Lower(xs[i].description));
    }
    Seqs.FilterAll(xs, Matches(DefaultFilters));
  }

  /** 'active' keeps only unresolved incidents, 'resolved' only resolved ones; any other value but 'all' keeps none. */
  lemma StatusSelects(xs: seq<Incident>, f: Filters)
    ensures f.status == "active" ==> forall i :: 0 <= i < |FilteredIncidents(xs, f)| ==> !FilteredIncidents(xs, f)[i].resolved
    ensures f.status == "resolved" ==> forall i :: 0 <= i < |FilteredIncidents(xs, f)| ==> FilteredIncidents(xs, f)[i].resolved
    ensures f.status !in {"all", "active", "resolved"} ==> FilteredIncidents(xs, f) == []
  {
    if f.status !in {"all", "active", "resolved"} {
      var r := FilteredIncidents(xs, f);
      if r != [] {
        assert MatchesStatus(r[0], f.status);
      }
    }
  }

  lemma LowerUpperChar(c: char)
    ensures LowerChar(UpperChar(c)) == LowerChar(c)
  {
  }

  /** Lower-casing forgets an upper-casing first. */
  lemma LowerUpper(s: string)
    ensures Lower(Upper(s)) == Lower(s)
  {
    forall i | 0 <= i < |s| ensures Lower(Upper(s))[i] == Lower(s)[i] {
      LowerUpperChar(s[i]);
    }
  }

  /**
   * The search ignores case: searching for the upper-cased text finds the
   * same incidents, for ASCII search text (JavaScript upper-cases some other
   * characters into several, `ß` into `SS`).
   */
  lemma SearchIgnoresCase(xs: seq<Incident>, f: Filters)
    requires IsAscii(f.search)
    ensures FilteredIncidents(xs, f.(search := Upper(f.search))) == FilteredIncidents(xs, f)
  {
    LowerUpper(f.search);
    Seqs.FilterAgree(xs, Matches(f.(search := Upper(f.search))), Matches(f));
  }

  /** The summary counts: unresolved, resolved and critical incidents. */
  datatype Counts = Counts(unresolved: nat, resolved: nat, critical: nat)

  function IsCritical(): Incident -> bool
  {
    (x: Incident) => Lower(x.severity) == "critical"
  }

  function SummaryCounts(xs: seq<Incident>): (c: Counts)
    ensures c.unresolved + c.resolved == |xs|
    ensures c.unresolved == |Seqs.Filter(xs, IsUnresolved())| && c.resolved == |Seqs.Filter(xs, IsResolved())|
    ensures c.critical == |Seqs.Filter(xs, IsCritical())| && c.critical <= |xs|
  {
    Seqs.FilterLength(xs, IsUnresolved());
    Seqs.FilterLength(xs, IsResolved());
    Seqs.CountSplit(xs, IsResolved(), IsUnresolved());
    Counts(|Seqs.Filter(xs, IsUnresolved())|, |Seqs.Filter(xs, IsResolved())|, |Seqs.Filter(xs, IsCritical())|)
  }

  /** The route's JSON response as the store's fetch sees it: a parsed incident list only with a 200. */
  function AsFetchOutcome(resp: IncidentsRoute.Response): (o: FetchOutcome<seq<Incident>>)
    ensures FetchSucceeded(o) <==> resp.IncidentsJson? && IsOk(resp.status)
    ensures FetchSucceeded(o) ==> o.body == Some(resp.incidents)
  {
    match resp
    case IncidentsJson(status, incidents) => HttpResponse(status, Some(incidents))
    case ErrorJson(status, _) => HttpResponse(status, None)
  }

  /** `resolved=true` on the route selects the same rows as `incident.resolved`. */
  lemma RouteTrueSelectsResolved(table: seq<Incident>)
    ensures Seqs.Filter(table, IncidentsRoute.ResolvedFilter(Some("true"))) == Seqs.Filter(table, IsResolved())
  {
    Seqs.FilterAgree(table, IncidentsRoute.ResolvedFilter(Some("true")), IsResolved());
  }

  /**
   * What the page does on load, as written: `fetchIncidents(true)` against
   * the route over `table`, so only the resolved rows arrive.
   */
  function LoadIncidents(s: State, table: seq<Incident>, queryFails: bool): (r: State)
    ensures !r.loading
    ensures queryFails ==> r.incidents == s.incidents
    ensures !queryFails ==> multiset(r.incidents) == multiset(Seqs.Filter(table, IsResolved()))
    ensures !queryFails ==> forall i :: 0 <= i < |r.incidents| ==> r.incidents[i].resolved
  {
    RouteTrueSelectsResolved(table);
    FetchIncidents(s, AsFetchOutcome(IncidentsRoute.GetIncidents(table, IncidentsResolvedParam(Some(true)), queryFails)))
  }

  /** With an active incident in the table, the page meant to list all incidents shows none of them. */
  lemma LoadHidesActiveIncidents(s: State, inc: Incident)
    requires !inc.resolved
    ensures LoadIncidents(s, [inc], false).incidents == []
  {
    assert Seqs.Filter([inc], IsResolved()) == [];
  }

  /** The load the page evidently intends: the route without a `resolved` parameter, so every row arrives. */
  function LoadAllIncidents(s: State, table: seq<Incident>, queryFails: bool): (r: State)
    ensures !r.loading
    ensures queryFails ==> r.incidents == s.incidents
    ensures !queryFails ==> multiset(r.incidents) == multiset(table) && IncidentsRoute.SortedNewestFirst(r.incidents)
  {
    IncidentsRoute.NoParamReturnsAll(table);
    FetchIncidents(s, AsFetchOutcome(IncidentsRoute.GetIncidents(table, None, queryFails)))
  }
}
