/**
 * The query the camera service sends for its camera list: the pagination
 * parameters with their defaults, the optional filters added only when they
 * are set, and the endpoint the request goes to.
 */
module CameraService {
  import opened Wrappers
  import opened JsText
  import Seqs
  import ApiClient

  /** The `status` filter: declared as a list of statuses, but a plain string is passed through too. */
  datatype StatusFilter = StatusList(statuses: seq<string>) | StatusText(text: string)

  datatype CameraFilters = CameraFilters(
    status: Option<StatusFilter>,
    location: Option<string>,
    searchTerm: Option<string>)

  const CamerasEndpoint := "/cameras"

  /** A string field that is set and not empty. */
  predicate Truthy(v: Option<string>)
  {
    v.Some? && v.value != ""
  }

  /** An array is always truthy; a string only when not empty. */
  predicate StatusTruthy(v: Option<StatusFilter>)
  {
    v.Some? && (v.value.StatusList? || v.value.text != "")
  }

  /** The text sent for a status filter: a list joined with ',', a string as is. */
  function StatusParam(s: StatusFilter): (t: string)
    ensures s.StatusList? && |s.statuses| == 0 ==> t == ""
    ensures s.StatusList? && 0 < |s.statuses| && (forall i :: 0 <= i < |s.statuses| ==> ',' !in s.statuses[i]) ==>
      Split(t, ',') == s.statuses
    ensures s.StatusText? ==> t == s.text
  {
    match s
    case StatusList(statuses) =>
      if |statuses| > 0 && forall i :: 0 <= i < |statuses| ==> ',' !in statuses[i] then
        SplitJoin(statuses, ',');
        Join(statuses, ",")
      else Join(statuses, ",")
    case StatusText(text) => text
  }

  /** `params` of `getCameras(filters, page = 1, limit = 50)`, in insertion order. */
  function GetCamerasParams(filters: Option<CameraFilters>, page: Option<int>, limit: Option<int>): (ps: seq<(string, ApiClient.ParamValue)>)
    ensures 2 <= |ps| <= 5
    ensures ps[0] == ("page", ApiClient.Text(IntToString(page.GetOr(1))))
    ensures ps[1] == ("limit", ApiClient.Text(IntToString(limit.GetOr(50))))
    ensures forall i :: 0 <= i < |ps| ==> ps[i].1.Text? && ps[i].0 in {"page", "limit", "location", "searchTerm", "status"}
    ensures forall i, j :: 0 <= i < j < |ps| ==> ps[i].0 != ps[j].0
    ensures filters.None? ==> |ps| == 2
    ensures filters.Some? ==> ps[2..] == FilterParams(filters.value)
  {
    var base := [("page", ApiClient.Text(IntToString(page.GetOr(1)))), ("limit", ApiClient.Text(IntToString(limit.GetOr(50))))];
    if filters.None? then base
    else
      var rest := FilterParams(filters.value);
      var ps := base + rest;
      assert ps[..2] == base && ps[2..] == rest;
      ps
  }

  /**
   * The parameters the filters add after `page` and `limit`: `location`,
   * `searchTerm` and `status`, each only when it is set and truthy.
   */
  function FilterParams(f: CameraFilters): (ps: seq<(string, ApiClient.ParamValue)>)
    ensures |ps| <= 3
    ensures forall i :: 0 <= i < |ps| ==> ps[i].1.Text? && ps[i].0 in {"location", "searchTerm", "status"}
    ensures forall i, j :: 0 <= i < j < |ps| ==> ps[i].0 != ps[j].0
    ensures ("location", ApiClient.Text(f.location.GetOr(""))) in ps <==> Truthy(f.location)
    ensures ("searchTerm", ApiClient.Text(f.searchTerm.GetOr(""))) in ps <==> Truthy(f.searchTerm)
    ensures (exists i :: 0 <= i < |ps| && ps[i].0 == "status") <==> StatusTruthy(f.status)
    ensures forall i :: 0 <= i < |ps| && ps[i].0 == "status" ==>
      f.status.Some? && ps[i].1.text == StatusParam(f.status.value)
  {
    var withLocation := if Truthy(f.location) then [("location", ApiClient.Text(f.location.value))] else [];
    var withSearch := if Truthy(f.searchTerm) then withLocation + [("searchTerm", ApiClient.Text(f.searchTerm.value))] else withLocation;
    assert forall i :: 0 <= i < |withSearch| ==> withSearch[i].0 != "status";
    if StatusTruthy(f.status) then
      var ps := withSearch + [("status", ApiClient.Text(StatusParam(f.status.value)))];
      assert ps[|ps| - 1].0 == "status";
      ps
    else withSearch
  }

  /** The URL `getCameras` fetches through a client with configuration `config`. */
  function GetCamerasUrl(config: ApiClient.Config, filters: Option<CameraFilters>, page: Option<int>, limit: Option<int>): (url: string)
    ensures StartsWith(url, config.baseUrl + CamerasEndpoint + "?page=" + IntToString(page.GetOr(1)) +
      "&limit=" + IntToString(limit.GetOr(50)))
  {
    var ps := GetCamerasParams(filters, page, limit);
    PageAndLimitFirst(config.baseUrl + CamerasEndpoint, IntToString(page.GetOr(1)), IntToString(limit.GetOr(50)), ps);
    ApiClient.BuildUrlWithParams(config.baseUrl + CamerasEndpoint, Some(ps))
  }

  lemma PageAndLimitFirst(base: string, p: string, l: string, ps: seq<(string, ApiClient.ParamValue)>)
    requires 2 <= |ps| && ps[0] == ("page", ApiClient.Text(p)) && ps[1] == ("limit", ApiClient.Text(l))
    requires forall i :: 0 <= i < |ps| ==> ps[i].1.Text?
    ensures StartsWith(ApiClient.BuildUrlWithParams(base, Some(ps)), base + "?page=" + p + "&limit=" + l)
  {
    CamerasUrlPrefix(base, ps);
    assert ApiClient.Pair(ps[0]) == "page" + "=" + p;
    assert ApiClient.Pair(ps[1]) == "limit" + "=" + l;
    Regroup(base, "?", "page", "=", p, "&", "limit", l);
    PageAndLimitText(base, p, l);
  }

  lemma Regroup(b: string, q: string, k1: string, e: string, v1: string, amp: string, k2: string, v2: string)
    ensures b + q + (k1 + e + v1) + amp + (k2 + e + v2) == b + q + k1 + e + v1 + amp + k2 + e + v2
  {
  }

  lemma PageAndLimitText(base: string, p: string, l: string)
    ensures base + "?" + "page" + "=" + p + "&" + "limit" + "=" + l == base + "?page=" + p + "&limit=" + l
  {
    assert "?" + "page" + "=" == "?page=";
    assert "&" + "limit" + "=" == "&limit=";
  }

  /** Parameters that are all present put their first two pairs first in the URL. */
  lemma CamerasUrlPrefix(base: string, ps: seq<(string, ApiClient.ParamValue)>)
    requires 2 <= |ps|
    requires forall i :: 0 <= i < |ps| ==> ps[i].1.Text?
    ensures StartsWith(ApiClient.BuildUrlWithParams(base, Some(ps)),
      base + "?" + ApiClient.Pair(ps[0]) + "&" + ApiClient.Pair(ps[1]))
  {
    var pairs := AllPresentUrl(base, ps);
    JoinStartsWithFirstTwo(pairs, "&");
    PrefixConcat(base + "?", Join(pairs, "&"), pairs[0] + "&" + pairs[1]);
    assert base + "?" + (pairs[0] + "&" + pairs[1]) == base + "?" + pairs[0] + "&" + pairs[1];
  }

  lemma AllPresentUrl(base: string, ps: seq<(string, ApiClient.ParamValue)>) returns (pairs: seq<string>)
    requires 1 <= |ps|
    requires forall i :: 0 <= i < |ps| ==> ps[i].1.Text?
    ensures pairs == ApiClient.Pairs(ps)
    ensures ApiClient.BuildUrlWithParams(base, Some(ps)) == base + "?" + Join(pairs, "&")
  {
    Seqs.FilterAll(ps, ApiClient.Present());
    pairs := ApiClient.Pairs(ps);
  }

  lemma PrefixConcat(a: string, q: string, head: string)
    requires StartsWith(q, head)
    ensures StartsWith(a + q, a + head)
  {
    assert (a + q)[..|a + head|] == a + q[..|head|];
  }

  lemma JoinStartsWithFirstTwo(parts: seq<string>, sep: string)
    requires 2 <= |parts|
    ensures StartsWith(Join(parts, sep), parts[0] + sep + parts[1])
  {
    var rest := Join(parts[1..], sep);
    assert Join(parts, sep) == parts[0] + sep + rest;
    assert StartsWith(rest, parts[1]);
  }

  /** Without filters and with the default page and limit, the client fetches the first 50 cameras. */
  lemma DefaultCamerasUrl(apiUrl: Option<string>)
    ensures GetCamerasUrl(ApiClient.DefaultConfig(apiUrl), None, None, None) ==
      ApiClient.DefaultConfig(apiUrl).baseUrl + "/cameras?page=1&limit=50"
  {
    var baseUrl := ApiClient.DefaultConfig(apiUrl).baseUrl;
    var ps := GetCamerasParams(None, None, None);
    assert IntToString(1) == "1" && IntToString(50) == "50";
    TwoParamUrl(baseUrl + CamerasEndpoint, ps);
    PageAndLimitText(baseUrl + CamerasEndpoint, "1", "50");
    DefaultQueryText(baseUrl);
  }

  /** With exactly two parameters, both present, the URL is the base and the two pairs. */
  lemma TwoParamUrl(base: string, ps: seq<(string, ApiClient.ParamValue)>)
    requires |ps| == 2 && ps[0].1.Text? && ps[1].1.Text?
    ensures ApiClient.BuildUrlWithParams(base, Some(ps)) ==
      base + "?" + ps[0].0 + "=" + ps[0].1.text + "&" + ps[1].0 + "=" + ps[1].1.text
  {
    var pairs := AllPresentUrl(base, ps);
    assert Join(pairs, "&") == pairs[0] + "&" + Join(pairs[1..], "&");
    assert Join(pairs[1..], "&") == pairs[1];
    Regroup(base, "?", ps[0].0, "=", ps[0].1.text, "&", ps[1].0, ps[1].1.text);
    assert base + "?" + (pairs[0] + "&" + pairs[1]) == base + "?" + pairs[0] + "&" + pairs[1];
  }

  lemma DefaultQueryText(baseUrl: string)
    ensures baseUrl + CamerasEndpoint + "?page=" + "1" + "&limit=" + "50" == baseUrl + "/cameras?page=1&limit=50"
  {
    assert CamerasEndpoint + "?page=" + "1" + "&limit=" + "50" == "/cameras?page=1&limit=50";
  }
}
