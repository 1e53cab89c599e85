/** The console report AnalysisLog prints over the mapped records, as data:
    each LINQ query becomes a function over the record list, and the
    printing is left to the caller. */
module LogAnalysis {
  import opened Base
  import opened Calendar
  import opened RequestLogModel
  import opened Grouping

  /** What AnalysisLog prints, section by section. */
  datatype Report = Report(
    total: nat,
    topRoutes: seq<(string, nat)>,
    statusBreakdown: seq<(int32, nat)>,
    slowest: seq<RequestLog>,
    hourly: seq<(int, nat)>,
    activeStaff: seq<(string, nat)>,
    activeCompanies: seq<(string, nat)>,
    averageDurations: seq<(string, real)>)

  // The grouping keys, one per record, in record order.

  function Routes(datas: seq<RequestLog>): (keys: seq<string>)
    ensures |keys| == |datas| && forall i :: 0 <= i < |datas| ==> keys[i] == datas[i].route
  {
    seq(|datas|, i requires 0 <= i < |datas| => datas[i].route)
  }

  function StatusCodes(datas: seq<RequestLog>): (keys: seq<int32>)
    ensures |keys| == |datas| && forall i :: 0 <= i < |datas| ==> keys[i] == datas[i].statusCode
  {
    seq(|datas|, i requires 0 <= i < |datas| => datas[i].statusCode)
  }

  function Hours(datas: seq<RequestLog>): (keys: seq<int>)
    ensures |keys| == |datas| && forall i :: 0 <= i < |datas| ==> keys[i] == datas[i].timestamp.hour
  {
    seq(|datas|, i requires 0 <= i < |datas| => datas[i].timestamp.hour)
  }

  function StaffIds(datas: seq<RequestLog>): (keys: seq<string>)
    ensures |keys| == |datas| && forall i :: 0 <= i < |datas| ==> keys[i] == datas[i].staffId
  {
    seq(|datas|, i requires 0 <= i < |datas| => datas[i].staffId)
  }

  function CompanyIds(datas: seq<RequestLog>): (keys: seq<string>)
    ensures |keys| == |datas| && forall i :: 0 <= i < |datas| ==> keys[i] == datas[i].companyId
  {
    seq(|datas|, i requires 0 <= i < |datas| => datas[i].companyId)
  }

  // The orders the queries sort by.

  function ByCount<K>(g: (K, nat)): real { g.1 as real }

  function CodeValue(code: int32): real { code as real }

  function HourValue(hour: int): real { hour as real }

  function DurationOf(e: RequestLog): real { e.duration as real }

  function ByAverage(a: (string, real)): real { a.1 }

  predicate IsNamed(g: (string, nat)) { g.0 != Absent }

  /** Top 5 Requested Routes: GroupBy(Route), count, OrderByDescending(Count), Take(5). */
  function RouteCounts(datas: seq<RequestLog>): seq<(string, nat)>
  {
    SortDescending(GroupCounts(Routes(datas)), ByCount)
  }

  function TopRoutes(datas: seq<RequestLog>): seq<(string, nat)>
  {
    Take(RouteCounts(datas), 5)
  }

  /** Status Code Breakdown: GroupBy(StatusCode), count, OrderBy(Code). */
  function StatusBreakdown(datas: seq<RequestLog>): seq<(int32, nat)>
  {
    SortAscending(GroupCounts(StatusCodes(datas)), ByKey(CodeValue))
  }

  /** Top 10 Slowest Requests: OrderByDescending(Duration), Take(10). */
  function Slowest(datas: seq<RequestLog>): seq<RequestLog>
  {
    Take(SortDescending(datas, DurationOf), 10)
  }

  /** Request Volume by Hour: GroupBy(Timestamp.Hour), count, OrderBy(Hour). */
  function Hourly(datas: seq<RequestLog>): seq<(int, nat)>
  {
    SortAscending(GroupCounts(Hours(datas)), ByKey(HourValue))
  }

  /** GroupBy(key), Where(Key != "-"), count, OrderByDescending(Count), Take(5). */
  function MostActive(keys: seq<string>): seq<(string, nat)>
  {
    Take(SortDescending(Where(GroupCounts(keys), IsNamed), ByCount), 5)
  }

  /** Most Active Staff */
  function ActiveStaff(datas: seq<RequestLog>): seq<(string, nat)>
  {
    MostActive(StaffIds(datas))
  }

  /** Most Active Companies */
  function ActiveCompanies(datas: seq<RequestLog>): seq<(string, nat)>
  {
    MostActive(CompanyIds(datas))
  }

  /** The durations of the records on `route`, in record order. */
  function DurationsOf(datas: seq<RequestLog>, route: string): seq<int>
  {
    if datas == [] then []
    else if datas[0].route == route then [datas[0].duration as int] + DurationsOf(datas[1..], route)
    else DurationsOf(datas[1..], route)
  }

  function Sum(s: seq<int>): int
  {
    if s == [] then 0 else s[0] + Sum(s[1..])
  }

  /** Enumerable.Average over a non-empty group, computed exactly. */
  function Mean(s: seq<int>): real
    requires |s| > 0
  {
    Sum(s) as real / |s| as real
  }

  /** A route has as many durations as it has records. */
  lemma {:induction false} DurationsCount(datas: seq<RequestLog>, route: string)
    ensures |DurationsOf(datas, route)| == Occurrences(Routes(datas), route)
  {
    if datas != [] {
      DurationsCount(datas[1..], route);
      assert Routes(datas) == [datas[0].route] + Routes(datas[1..]);
    }
  }

  function AverageEach(routes: seq<string>, datas: seq<RequestLog>): (averages: seq<(string, real)>)
    requires forall i :: 0 <= i < |routes| ==> routes[i] in Routes(datas)
    ensures |averages| == |routes|
    ensures forall i :: 0 <= i < |routes| ==> averages[i].0 == routes[i]
  {
    if routes == [] then []
    else
      DurationsCount(datas, routes[0]);
      [(routes[0], Mean(DurationsOf(datas, routes[0])))] + AverageEach(routes[1..], datas)
  }

  /** Average Duration per Route: GroupBy(Route), Average(Duration),
      OrderByDescending(Avg), Take(5). */
  function RouteAverages(datas: seq<RequestLog>): seq<(string, real)>
  {
    SortDescending(AverageEach(Distinct(Routes(datas)), datas), ByAverage)
  }

  function AverageDurations(datas: seq<RequestLog>): seq<(string, real)>
  {
    Take(RouteAverages(datas), 5)
  }

  /** AnalysisLog: every section of the report. */
  function AnalysisLog(datas: seq<RequestLog>): (report: Report)
    ensures report.total == |datas|
    ensures |report.topRoutes| <= 5 && |report.slowest| <= 10
    ensures |report.activeStaff| <= 5 && |report.activeCompanies| <= 5
    ensures |report.averageDurations| <= 5
  {
    Report(|datas|, TopRoutes(datas), StatusBreakdown(datas), Slowest(datas), Hourly(datas),
           ActiveStaff(datas), ActiveCompanies(datas), AverageDurations(datas))
  }

  // Properties of the sections.

  /** Every record is counted once in the route groups, and the top five
      routes come in non-increasing order of count. */
  lemma RouteCountsComplete(datas: seq<RequestLog>)
    ensures SumCounts(RouteCounts(datas)) == |datas|
    ensures forall i, j :: 0 <= i < j < |TopRoutes(datas)| ==> TopRoutes(datas)[i].1 >= TopRoutes(datas)[j].1
  {
    GroupCountsSum(Routes(datas));
    SumCountsSorted(GroupCounts(Routes(datas)), ByCount);
    SortDescendingSorted(GroupCounts(Routes(datas)), ByCount);
    TakeSorted(RouteCounts(datas), ByCount, 5);
  }

  /** A route requested more often than the fifth listed one is listed. */
  lemma TopRoutesKeepBusier(datas: seq<RequestLog>, route: string)
    requires |RouteCounts(datas)| > 5 && route in Routes(datas)
    requires Occurrences(Routes(datas), route) > RouteCounts(datas)[4].1
    ensures (route, Occurrences(Routes(datas), route)) in TopRoutes(datas)
  {
    var g := GroupCounts(Routes(datas));
    var d := Distinct(Routes(datas));
    var k :| 0 <= k < |d| && d[k] == route;
    assert g[k] == (route, Occurrences(Routes(datas), route));
    assert g[k] in multiset(RouteCounts(datas));
    SortDescendingSorted(g, ByCount);
    TakeKeepsLarger(RouteCounts(datas), ByCount, 5, g[k]);
  }

  /** The status breakdown accounts for every record, lists each code once,
      and in strictly ascending order. */
  lemma StatusBreakdownComplete(datas: seq<RequestLog>)
    ensures SumCounts(StatusBreakdown(datas)) == |datas|
    ensures forall i, j :: 0 <= i < j < |StatusBreakdown(datas)| ==>
      StatusBreakdown(datas)[i].0 < StatusBreakdown(datas)[j].0
  {
    var g := GroupCounts(StatusCodes(datas));
    GroupCountsSum(StatusCodes(datas));
    SumCountsAscending(g, ByKey(CodeValue));
    GroupsStrictlyAscending(StatusCodes(datas), CodeValue);
  }

  /** The slowest list holds the ten longest requests in non-increasing
      order of duration: a request slower than the tenth listed is listed. */
  lemma SlowestAreSlowest(datas: seq<RequestLog>, e: RequestLog)
    requires |datas| > 10 && e in datas
    requires e.duration > Slowest(datas)[9].duration
    ensures e in Slowest(datas)
  {
    var r := SortDescending(datas, DurationOf);
    SortDescendingSorted(datas, DurationOf);
    assert e in multiset(r);
    TakeKeepsLarger(r, DurationOf, 10, e);
  }

  lemma SlowestDescending(datas: seq<RequestLog>)
    ensures forall i, j :: 0 <= i < j < |Slowest(datas)| ==> Slowest(datas)[i].duration >= Slowest(datas)[j].duration
  {
    SortDescendingSorted(datas, DurationOf);
    TakeSorted(SortDescending(datas, DurationOf), DurationOf, 10);
  }

  /** OrderByDescending is stable: requests of equal duration keep the order
      in which they were read. */
  lemma SlowestStable(datas: seq<RequestLog>, d: real)
    ensures WithKey(SortDescending(datas, DurationOf), DurationOf, d) == WithKey(datas, DurationOf, d)
  {
    SortDescendingStable(datas, DurationOf, d);
  }

  /** With valid timestamps every hour key lies in 0..23, each appears once,
      and the keys strictly ascend. */
  lemma HourlyInDay(datas: seq<RequestLog>)
    requires forall i :: 0 <= i < |datas| ==> IsValid(datas[i].timestamp)
    ensures forall i :: 0 <= i < |Hourly(datas)| ==> 0 <= Hourly(datas)[i].0 < 24
    ensures forall i, j :: 0 <= i < j < |Hourly(datas)| ==> Hourly(datas)[i].0 < Hourly(datas)[j].0
    ensures SumCounts(Hourly(datas)) == |datas|
  {
    var hs := Hours(datas);
    var g := GroupCounts(hs);
    var r := Hourly(datas);
    GroupsStrictlyAscending(hs, HourValue);
    GroupCountsSum(hs);
    SumCountsAscending(g, ByKey(HourValue));
    SortedGroupKeysOccur(hs, ByKey(HourValue));
  }

  /** Anonymous callers ("-") are never listed among the most active, at
      most five are, and in non-increasing order of count. */
  lemma MostActiveNamed(keys: seq<string>)
    ensures forall i :: 0 <= i < |MostActive(keys)| ==> MostActive(keys)[i].0 != Absent
    ensures forall i, j :: 0 <= i < j < |MostActive(keys)| ==> MostActive(keys)[i].1 >= MostActive(keys)[j].1
  {
    var w := Where(GroupCounts(keys), IsNamed);
    var s := SortDescending(w, ByCount);
    SortDescendingSorted(w, ByCount);
    TakeSorted(s, ByCount, 5);
    forall i | 0 <= i < |s|
      ensures s[i].0 != Absent
    {
      assert s[i] in multiset(w);
    }
  }

  /** Every key with more records than the fifth listed is listed, unless
      it is the anonymous "-". */
  lemma MostActiveKeepsBusier(keys: seq<string>, key: string)
    requires key in keys && key != Absent
    requires |SortDescending(Where(GroupCounts(keys), IsNamed), ByCount)| > 5
    requires Occurrences(keys, key) > SortDescending(Where(GroupCounts(keys), IsNamed), ByCount)[4].1
    ensures (key, Occurrences(keys, key)) in MostActive(keys)
  {
    var g := GroupCounts(keys);
    var d := Distinct(keys);
    var k :| 0 <= k < |d| && d[k] == key;
    assert g[k] == (key, Occurrences(keys, key));
    var w := Where(g, IsNamed);
    assert g[k] in w;
    assert g[k] in multiset(SortDescending(w, ByCount));
    SortDescendingSorted(w, ByCount);
    TakeKeepsLarger(SortDescending(w, ByCount), ByCount, 5, g[k]);
  }

  lemma {:induction false} SumBounds(s: seq<int>, lo: real, hi: real)
    requires forall i :: 0 <= i < |s| ==> lo <= s[i] as real <= hi
    ensures lo * |s| as real <= Sum(s) as real <= hi * |s| as real
  {
    if s != [] {
      SumBounds(s[1..], lo, hi);
      BoundsStep(lo, hi, |s[1..]| as real, Sum(s[1..]) as real, s[0] as real);
      assert |s| as real == |s[1..]| as real + 1.0;
    }
  }

  lemma BoundsStep(lo: real, hi: real, n: real, total: real, x: real)
    requires lo * n <= total <= hi * n && lo <= x <= hi
    ensures lo * (n + 1.0) <= total + x <= hi * (n + 1.0)
  {
  }

  /** An average lies between the fastest and the slowest request it covers. */
  lemma MeanBounds(s: seq<int>, lo: int, hi: int)
    requires |s| > 0 && forall i :: 0 <= i < |s| ==> lo <= s[i] <= hi
    ensures lo as real <= Mean(s) <= hi as real
  {
    SumBounds(s, lo as real, hi as real);
    assert Mean(s) * |s| as real == Sum(s) as real;
  }

  /** Each listed average is the total duration of the route over its request
      count, and the five listed come in non-increasing order. */
  lemma AverageIsSumOverCount(datas: seq<RequestLog>, i: nat)
    requires i < |RouteAverages(datas)|
    ensures var route := RouteAverages(datas)[i].0;
      var n := Occurrences(Routes(datas), route);
      n > 0 && RouteAverages(datas)[i].1 == Sum(DurationsOf(datas, route)) as real / n as real
  {
    var keys := Distinct(Routes(datas));
    var a := AverageEach(keys, datas);
    var r := RouteAverages(datas);
    assert r[i] in multiset(a);
    var k :| 0 <= k < |a| && a[k] == r[i];
    AverageEachAt(keys, datas, k);
    DurationsCount(datas, keys[k]);
  }

  lemma {:induction false} AverageEachAt(routes: seq<string>, datas: seq<RequestLog>, k: nat)
    requires forall i :: 0 <= i < |routes| ==> routes[i] in Routes(datas)
    requires k < |routes|
    ensures |DurationsOf(datas, routes[k])| > 0
    ensures AverageEach(routes, datas)[k].1 == Mean(DurationsOf(datas, routes[k]))
  {
    DurationsCount(datas, routes[k]);
    if k > 0 {
      AverageEachAt(routes[1..], datas, k - 1);
    }
  }

  lemma AverageDurationsDescending(datas: seq<RequestLog>)
    ensures forall i, j :: 0 <= i < j < |AverageDurations(datas)| ==>
      AverageDurations(datas)[i].1 >= AverageDurations(datas)[j].1
  {
    var a := AverageEach(Distinct(Routes(datas)), datas);
    SortDescendingSorted(a, ByAverage);
    TakeSorted(RouteAverages(datas), ByAverage, 5);
  }

  /** Three requests on one route taking 100, 500 and 200 ms, in that order. */
  function ThreeRequests(route: string): (datas: seq<RequestLog>)
    ensures |datas| == 3 && forall i :: 0 <= i < 3 ==> datas[i].route == route
  {
    [NewRequestLog(0).(route := route, duration := 100),
     NewRequestLog(1).(route := route, duration := 500),
     NewRequestLog(2).(route := route, duration := 200)]
  }

  /** The slowest list is 500, 200, 100. */
  lemma ThreeRequestsSlowest(route: string)
    ensures var d := ThreeRequests(route); Slowest(d) == [d[1], d[2], d[0]]
  {
    var d := ThreeRequests(route);
    assert d[1..] == [d[1], d[2]];
    assert d[2..] == [d[2]];
    assert DurationOf(d[0]) == 100.0 && DurationOf(d[1]) == 500.0 && DurationOf(d[2]) == 200.0;
    assert [d[2]][1..] == [];
    assert SortDescending([d[2]], DurationOf) == [d[2]];
    assert [d[1], d[2]][1..] == [d[2]];
    assert SortDescending([d[1], d[2]], DurationOf) == [d[1], d[2]];
    assert Insert(d[0], [d[2]], DurationOf) == [d[2], d[0]];
    assert Insert(d[0], [d[1], d[2]], DurationOf) == [d[1], d[2], d[0]];
  }

  lemma ThreeRequestsRoutes(route: string)
    ensures Routes(ThreeRequests(route)) == [route, route, route]
    ensures Distinct(Routes(ThreeRequests(route))) == [route]
    ensures Occurrences(Routes(ThreeRequests(route)), route) == 3
  {
    var keys := Routes(ThreeRequests(route));
    assert keys == [route, route, route];
    assert keys[..2] == [route, route];
    assert keys[..2][..1] == [route];
    assert [route][..0] == [];
    assert Distinct([route]) == [route];
    assert Distinct([route, route]) == [route];
  }

  /** The route is requested three times. */
  lemma ThreeRequestsTopRoutes(route: string)
    ensures TopRoutes(ThreeRequests(route)) == [(route, 3)]
  {
    ThreeRequestsRoutes(route);
    var g := GroupCounts(Routes(ThreeRequests(route)));
    assert g == [(route, 3)];
    assert g[1..] == [];
    assert SortDescending(g, ByCount) == [(route, 3)];
  }

  lemma ThreeRequestsDurations(route: string)
    ensures DurationsOf(ThreeRequests(route), route) == [100, 500, 200]
    ensures Sum([100, 500, 200]) == 800
  {
    var d := ThreeRequests(route);
    assert d[1..][1..] == [d[2]];
    assert [d[2]][1..] == [];
    assert DurationsOf([d[2]], route) == [200];
    assert DurationsOf(d[1..], route) == [500, 200];
    assert [100, 500, 200][1..] == [500, 200];
    assert [500, 200][1..] == [200];
    assert [200][1..] == [];
  }

  /** The route averages 800/3 ms. */
  lemma ThreeRequestsAverage(route: string)
    ensures AverageDurations(ThreeRequests(route)) == [(route, 800.0 / 3.0)]
  {
    var d := ThreeRequests(route);
    ThreeRequestsRoutes(route);
    ThreeRequestsDurations(route);
    var a := AverageEach([route], d);
    assert a == [(route, 800.0 / 3.0)];
    assert a[1..] == [];
    assert SortDescending(a, ByAverage) == a;
  }
}
