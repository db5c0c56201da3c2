/**
 * The reports screen: completed visits per area, the opportunities found on visits tallied by
 * service type and summed by value, and the visits per calendar month with the six-month window.
 */
module Reports {
  import opened Basics
  import opened Types

  // ----- Completed visits by area -----

  /** `areaClientIds.includes(id)`: some client of the area carries this id. */
  function HasClientIn(clients: seq<Client>, area: Area, id: string): (b: bool)
    ensures b <==> exists i :: 0 <= i < |clients| && clients[i].area == area && clients[i].id == id
  {
    if clients == [] then false
    else if clients[0].area == area && clients[0].id == id then true
    else
      var b := HasClientIn(clients[1..], area, id);
      assert b ==> exists i :: 0 <= i < |clients| && clients[i].area == area && clients[i].id == id by {
        if b {
          var i :| 0 <= i < |clients[1..]| && clients[1..][i].area == area && clients[1..][i].id == id;
          assert clients[i + 1] == clients[1..][i];
        }
      }
      b
  }

  /** The visit counts in the area's bar: Realizada, for a client of that area. */
  predicate CountsFor(clients: seq<Client>, area: Area, v: Visit) {
    v.status == Completed && HasClientIn(clients, area, v.clientId)
  }

  /** The number of visits that count for the area. */
  function CompletedIn(clients: seq<Client>, visits: seq<Visit>, area: Area): (n: nat)
    ensures n <= |visits|
  {
    if visits == [] then 0
    else (if CountsFor(clients, area, visits[0]) then 1 else 0) + CompletedIn(clients, visits[1..], area)
  }

  datatype AreaRow = AreaRow(area: Area, visits: nat)

  /** `visitsByArea`: one bar per area, in enumeration order. */
  function VisitsByArea(clients: seq<Client>, visits: seq<Visit>): (r: seq<AreaRow>)
    ensures |r| == |Areas|
    ensures forall i :: 0 <= i < |r| ==> r[i].area == Areas[i]
    ensures forall i :: 0 <= i < |r| ==> r[i].visits <= |visits|
    ensures forall i :: 0 <= i < |r| ==> r[i].visits == |Filter(visits, v => CountsFor(clients, Areas[i], v))|
  {
    assert forall i :: 0 <= i < |Areas| ==>
      CompletedIn(clients, visits, Areas[i]) == |Filter(visits, v => CountsFor(clients, Areas[i], v))| by {
      forall i | 0 <= i < |Areas|
        ensures CompletedIn(clients, visits, Areas[i]) == |Filter(visits, v => CountsFor(clients, Areas[i], v))|
      {
        CompletedInIsFilterLength(clients, visits, Areas[i]);
      }
    }
    seq(|Areas|, i requires 0 <= i < |Areas| => AreaRow(Areas[i], CompletedIn(clients, visits, Areas[i])))
  }

  /** Counting an area's visits is the length of the `filter` the source writes. */
  lemma {:induction false} CompletedInIsFilterLength(clients: seq<Client>, visits: seq<Visit>, area: Area)
    ensures CompletedIn(clients, visits, area) == |Filter(visits, v => CountsFor(clients, area, v))|
  {
    if visits != [] {
      CompletedInIsFilterLength(clients, visits[1..], area);
    }
  }

  function AreaTotal(rows: seq<AreaRow>): nat {
    if rows == [] then 0 else rows[0].visits + AreaTotal(rows[1..])
  }

  /** The completed visits whose client the list holds. */
  function CompletedWithClient(clients: seq<Client>, visits: seq<Visit>): (n: nat)
    ensures n <= |visits|
  {
    if visits == [] then 0
    else
      (if visits[0].status == Completed && FindClient(clients, visits[0].clientId).Some? then 1 else 0)
        + CompletedWithClient(clients, visits[1..])
  }

  /** With unique ids, the client a lookup finds is the one holding the id. */
  lemma FoundIsTheOne(clients: seq<Client>, i: int)
    requires UniqueClientIds(clients) && 0 <= i < |clients|
    ensures FindClient(clients, clients[i].id) == Some(clients[i])
  {
    var r := FindClient(clients, clients[i].id);
    var j :| FirstWithId(clients, j, clients[i].id) && clients[j] == r.value;
  }

  /** With unique ids, a visit belongs to an area exactly when its client is found and lies there. */
  lemma InAreaIffFound(clients: seq<Client>, area: Area, id: string)
    requires UniqueClientIds(clients)
    ensures HasClientIn(clients, area, id) <==> FindClient(clients, id).Some? && FindClient(clients, id).value.area == area
  {
    if HasClientIn(clients, area, id) {
      var i :| 0 <= i < |clients| && clients[i].area == area && clients[i].id == id;
      FoundIsTheOne(clients, i);
    }
    if FindClient(clients, id).Some? {
      var i :| FirstWithId(clients, i, id) && clients[i] == FindClient(clients, id).value;
      assert clients[i].area == FindClient(clients, id).value.area;
    }
  }

  /** One visit counts in exactly one area if it is completed and its client is found, else in none. */
  lemma OneVisitOneArea(clients: seq<Client>, v: Visit)
    requires UniqueClientIds(clients)
    ensures (if CountsFor(clients, Cidade, v) then 1 else 0) + (if CountsFor(clients, Margem, v) then 1 else 0)
      + (if CountsFor(clients, Moatize, v) then 1 else 0) + (if CountsFor(clients, EmpresaMineira, v) then 1 else 0)
      == if v.status == Completed && FindClient(clients, v.clientId).Some? then 1 else 0
  {
    InAreaIffFound(clients, Cidade, v.clientId);
    InAreaIffFound(clients, Margem, v.clientId);
    InAreaIffFound(clients, Moatize, v.clientId);
    InAreaIffFound(clients, EmpresaMineira, v.clientId);
  }

  lemma {:induction false} AreaCountsPartition(clients: seq<Client>, visits: seq<Visit>)
    requires UniqueClientIds(clients)
    ensures CompletedIn(clients, visits, Cidade) + CompletedIn(clients, visits, Margem)
      + CompletedIn(clients, visits, Moatize) + CompletedIn(clients, visits, EmpresaMineira)
      == CompletedWithClient(clients, visits)
  {
    if visits != [] {
      OneVisitOneArea(clients, visits[0]);
      AreaCountsPartition(clients, visits[1..]);
    }
  }

  /**
   * With unique client ids the area bars add up to the completed visits whose client exists:
   * every such visit is counted once, and no other visit is counted.
   */
  lemma AreaBarsAddUp(clients: seq<Client>, visits: seq<Visit>)
    requires UniqueClientIds(clients)
    ensures AreaTotal(VisitsByArea(clients, visits)) == CompletedWithClient(clients, visits)
  {
    var r := VisitsByArea(clients, visits);
    assert r[1..][1..][1..][1..] == [];
    assert AreaTotal(r) == r[0].visits + r[1].visits + r[2].visits + r[3].visits by {
      assert AreaTotal(r[1..][1..][1..]) == r[3].visits;
      assert AreaTotal(r[1..][1..]) == r[2].visits + r[3].visits;
      assert AreaTotal(r[1..]) == r[1].visits + r[2].visits + r[3].visits;
    }
    AreaCountsPartition(clients, visits);
  }

  /** A visit not yet Realizada, or one whose client is unknown, leaves every bar as it was. */
  lemma UncountedVisitChangesNoBar(clients: seq<Client>, visits: seq<Visit>, v: Visit)
    requires v.status != Completed || FindClient(clients, v.clientId).None?
    ensures VisitsByArea(clients, [v] + visits) == VisitsByArea(clients, visits)
  {
    assert ([v] + visits)[1..] == visits;
  }

  // ----- Opportunities -----

  /** `visits.flatMap(v => v.opportunitiesFound || [])`: every visit's opportunities, in order. */
  function AllOpportunities(visits: seq<Visit>): (r: seq<Opportunity>)
    ensures forall i :: 0 <= i < |visits| ==> forall o :: o in visits[i].opportunitiesFound ==> o in r
  {
    if visits == [] then []
    else
      var rest := AllOpportunities(visits[1..]);
      assert forall i :: 1 <= i < |visits| ==> visits[i] == visits[1..][i - 1];
      visits[0].opportunitiesFound + rest
  }

  /** Flattening distributes over concatenation of the visit lists. */
  lemma {:induction false} AllOpportunitiesAppend(a: seq<Visit>, b: seq<Visit>)
    ensures AllOpportunities(a + b) == AllOpportunities(a) + AllOpportunities(b)
  {
    if a == [] {
      assert a + b == b;
    } else {
      assert (a + b)[0] == a[0];
      assert (a + b)[1..] == a[1..] + b;
      AllOpportunitiesAppend(a[1..], b);
    }
  }

  /** Every opportunity listed was found on some visit. */
  lemma {:induction false} OpportunityHasVisit(visits: seq<Visit>, o: Opportunity)
    requires o in AllOpportunities(visits)
    ensures exists i :: 0 <= i < |visits| && o in visits[i].opportunitiesFound
  {
    if o !in visits[0].opportunitiesFound {
      OpportunityHasVisit(visits[1..], o);
      var i :| 0 <= i < |visits[1..]| && o in visits[1..][i].opportunitiesFound;
      assert visits[i + 1] == visits[1..][i];
    }
  }

  /** One bar of the opportunities chart. */
  datatype TypeCount = TypeCount(serviceType: string, count: nat)

  function Names(rows: seq<TypeCount>): seq<string> {
    if rows == [] then [] else [rows[0].serviceType] + Names(rows[1..])
  }

  predicate Distinct(names: seq<string>) {
    forall i, j :: 0 <= i < j < |names| ==> names[i] != names[j]
  }

  /** The count recorded for a service type; 0 when it has no row. */
  function CountOf(rows: seq<TypeCount>, t: string): nat {
    if rows == [] then 0
    else (if rows[0].serviceType == t then rows[0].count else 0) + CountOf(rows[1..], t)
  }

  function CountTotal(rows: seq<TypeCount>): nat {
    if rows == [] then 0 else rows[0].count + CountTotal(rows[1..])
  }

  /** `acc[t] = (acc[t] || 0) + 1`: bump the type's row, or open one at the end. */
  function Bump(rows: seq<TypeCount>, t: string): (r: seq<TypeCount>)
    ensures forall u :: CountOf(r, u) == CountOf(rows, u) + (if u == t then 1 else 0)
    ensures CountTotal(r) == CountTotal(rows) + 1
    ensures t in Names(rows) ==> Names(r) == Names(rows)
    ensures t !in Names(rows) ==> Names(r) == Names(rows) + [t]
  {
    if rows == [] then [TypeCount(t, 1)]
    else if rows[0].serviceType == t then [TypeCount(t, rows[0].count + 1)] + rows[1..]
    else [rows[0]] + Bump(rows[1..], t)
  }

  /** The opportunities of this service type. */
  function OfType(opps: seq<Opportunity>, t: string): nat {
    if opps == [] then 0 else (if opps[0].serviceType == t then 1 else 0) + OfType(opps[1..], t)
  }

  /** The `reduce` over the opportunities, from a tally already built. */
  function TallyFrom(rows: seq<TypeCount>, opps: seq<Opportunity>): (r: seq<TypeCount>)
    ensures forall t :: CountOf(r, t) == CountOf(rows, t) + OfType(opps, t)
    ensures CountTotal(r) == CountTotal(rows) + |opps|
    ensures Distinct(Names(rows)) ==> Distinct(Names(r))
    decreases opps
  {
    if opps == [] then rows
    else TallyFrom(Bump(rows, opps[0].serviceType), opps[1..])
  }

  /** `oppsByType` as `oppsData`: one row per service type in first-seen order, with its count. */
  function OppsByType(opps: seq<Opportunity>): (r: seq<TypeCount>)
    ensures Distinct(Names(r))
    ensures forall t :: CountOf(r, t) == OfType(opps, t)
    ensures CountTotal(r) == |opps|
  {
    TallyFrom([], opps)
  }

  /** The opportunities' types and nothing else get a row. */
  lemma {:induction false} RowsNameFoundTypes(rows: seq<TypeCount>, t: string)
    requires forall i :: 0 <= i < |rows| ==> rows[i].count > 0
    ensures t in Names(rows) <==> CountOf(rows, t) > 0
  {
    if rows != [] {
      RowsNameFoundTypes(rows[1..], t);
    }
  }

  lemma {:induction false} BumpKeepsPositive(rows: seq<TypeCount>, t: string)
    requires forall i :: 0 <= i < |rows| ==> rows[i].count > 0
    ensures forall i :: 0 <= i < |Bump(rows, t)| ==> Bump(rows, t)[i].count > 0
  {
    if rows != [] && rows[0].serviceType != t {
      BumpKeepsPositive(rows[1..], t);
    }
  }

  lemma {:induction false} TallyKeepsPositive(rows: seq<TypeCount>, opps: seq<Opportunity>)
    requires forall i :: 0 <= i < |rows| ==> rows[i].count > 0
    ensures forall i :: 0 <= i < |TallyFrom(rows, opps)| ==> TallyFrom(rows, opps)[i].count > 0
    decreases opps
  {
    if opps != [] {
      BumpKeepsPositive(rows, opps[0].serviceType);
      TallyKeepsPositive(Bump(rows, opps[0].serviceType), opps[1..]);
    }
  }

  /** A service type has a bar exactly when some opportunity is of that type. */
  lemma BarIffTypeFound(opps: seq<Opportunity>, t: string)
    ensures t in Names(OppsByType(opps)) <==> OfType(opps, t) > 0
  {
    TallyKeepsPositive([], opps);
    RowsNameFoundTypes(OppsByType(opps), t);
  }

  /** A truthy value: present and not zero. */
  predicate HasValue(o: Opportunity) {
    o.value.Some? && o.value.value != 0.0
  }

  function SumValues(opps: seq<Opportunity>): real {
    if opps == [] then 0.0 else ValueOrZero(opps[0]) + SumValues(opps[1..])
  }

  /** The estimated value card: the values of the opportunities that have one, added up. */
  function EstimatedValue(opps: seq<Opportunity>): (r: real)
    ensures r == SumValues(opps)
  {
    ValuelessAddNothing(opps);
    SumValues(Filter(opps, HasValue))
  }

  /** Skipping absent and zero values changes nothing: the sum of all values, absent read as 0. */
  lemma {:induction false} ValuelessAddNothing(opps: seq<Opportunity>)
    ensures SumValues(Filter(opps, HasValue)) == SumValues(opps)
  {
    if opps != [] {
      ValuelessAddNothing(opps[1..]);
    }
  }

  // ----- Visits by month -----

  /** `new Date(v.date).getMonth()`: 0 for January up to 11 for December. */
  function MonthIndex(v: Visit): (m: nat)
    ensures m < 12
  {
    v.date.month - 1
  }

  /** The visits dated in month `m`, whatever their year. */
  function InMonth(visits: seq<Visit>, m: nat): nat {
    if visits == [] then 0 else (if MonthIndex(visits[0]) == m then 1 else 0) + InMonth(visits[1..], m)
  }

  const NoVisits: seq<nat> := [0, 0, 0, 0, 0, 0, 0, 0, 0, 0, 0, 0]

  /** `visitsByMonth`: twelve counters, one `++` per visit. */
  function VisitsByMonth(visits: seq<Visit>): (r: seq<nat>)
    ensures |r| == 12
    ensures forall m :: 0 <= m < 12 ==> r[m] == InMonth(visits, m)
  {
    if visits == [] then NoVisits
    else
      var rest := VisitsByMonth(visits[1..]);
      var m := MonthIndex(visits[0]);
      rest[m := rest[m] + 1]
  }

  function Total(s: seq<nat>): nat {
    if s == [] then 0 else s[0] + Total(s[1..])
  }

  lemma {:induction false} TotalBump(s: seq<nat>, m: nat)
    requires m < |s|
    ensures Total(s[m := s[m] + 1]) == Total(s) + 1
  {
    if m > 0 {
      TotalBump(s[1..], m - 1);
      assert s[m := s[m] + 1][1..] == s[1..][m - 1 := s[1..][m - 1] + 1];
    }
  }

  /** Each visit lands in exactly one month, so the twelve counters add up to the number of visits. */
  lemma {:induction false} MonthsAddUp(visits: seq<Visit>)
    ensures Total(VisitsByMonth(visits)) == |visits|
  {
    if visits == [] {
      assert Total(NoVisits) == 0;
    } else {
      var rest := VisitsByMonth(visits[1..]);
      var m := MonthIndex(visits[0]);
      assert VisitsByMonth(visits) == rest[m := rest[m] + 1];
      MonthsAddUp(visits[1..]);
      TotalBump(rest, m);
    }
  }

  /** One point of the monthly line: the month's index (its short name in the chart) and its count. */
  datatype MonthRow = MonthRow(month: nat, visits: nat)

  function MonthRows(visits: seq<Visit>): (r: seq<MonthRow>)
    ensures |r| == 12
    ensures forall m :: 0 <= m < 12 ==> r[m] == MonthRow(m, InMonth(visits, m))
  {
    var counts := VisitsByMonth(visits);
    seq(12, m requires 0 <= m < 12 => MonthRow(m, counts[m]))
  }

  /** A `slice` bound: negative counts from the end, then clamped to the length. */
  function SliceIndex(len: nat, k: int): (r: nat)
    ensures r <= len
    ensures 0 <= k <= len ==> r == k
    ensures k < 0 && len + k >= 0 ==> r == len + k
  {
    if k < 0 then (if len + k < 0 then 0 else len + k)
    else if k > len then len
    else k
  }

  /** `Array.prototype.slice(start, end)`. */
  function JsSlice<T>(s: seq<T>, start: int, end: int): (r: seq<T>)
    ensures SliceIndex(|s|, start) < SliceIndex(|s|, end) ==> r == s[SliceIndex(|s|, start)..SliceIndex(|s|, end)]
    ensures SliceIndex(|s|, end) <= SliceIndex(|s|, start) ==> r == []
  {
    var a := SliceIndex(|s|, start);
    var b := SliceIndex(|s|, end);
    if a < b then s[a..b] else []
  }

  /** `monthlyData` as written: `slice(m - 5, m + 1)` of the twelve months, m the current month. */
  function MonthWindow(visits: seq<Visit>, m: nat): (r: seq<MonthRow>)
    requires m < 12
    ensures 5 <= m ==> r == MonthRows(visits)[m - 5..m + 1]
    ensures m <= 4 ==> r == []
  {
    assert m <= 4 ==> SliceIndex(12, m - 5) == m + 7;
    JsSlice(MonthRows(visits), m - 5, m + 1)
  }

  /** From June on the slice is the six months ending with the current one. */
  lemma MonthWindowFromJune(visits: seq<Visit>, m: nat)
    requires 5 <= m < 12
    ensures MonthWindow(visits, m) == MonthRows(visits)[m - 5..m + 1]
    ensures |MonthWindow(visits, m)| == 6 && MonthWindow(visits, m)[5].month == m
  {
  }

  /** A January visit seen in January: counted by the month counters, yet the chart shows nothing. */
  lemma JanuaryVisitNotCharted(v: Visit)
    requires v.date.month == 1
    ensures VisitsByMonth([v])[0] == 1
    ensures MonthWindow([v], 0) == []
  {
  }

  /** The month `i` places after the one five months before `m`, counted round the year. */
  function WindowMonth(m: nat, i: nat): (k: nat)
    requires m < 12 && i < 6
    ensures k < 12 && k == (m + 7 + i) % 12
  {
    if m + 7 + i < 12 then m + 7 + i else m + 7 + i - 12
  }

  /**
   * The six months ending with month `m`, wrapping into the months before January: the
   * window the chart's "last 6 months" is meant to show.
   */
  function LastSixMonths(visits: seq<Visit>, m: nat): (r: seq<MonthRow>)
    requires m < 12
    ensures |r| == 6 && r[5] == MonthRow(m, InMonth(visits, m))
    ensures forall i :: 0 <= i < 6 ==> r[i].month == WindowMonth(m, i) && r[i].visits == InMonth(visits, r[i].month)
    ensures forall i :: 0 <= i < 5 ==> r[i + 1].month == if r[i].month == 11 then 0 else r[i].month + 1
  {
    var rows := MonthRows(visits);
    seq(6, i requires 0 <= i < 6 => rows[WindowMonth(m, i)])
  }

  /** The chart data: the last six months, never empty. */
  function MonthlyData(visits: seq<Visit>, m: nat): (r: seq<MonthRow>)
    requires m < 12
    ensures |r| == 6 && r[5].month == m
  {
    LastSixMonths(visits, m)
  }

  /** Where the slice was right, from June on, the corrected window agrees with it. */
  lemma MonthlyDataAgreesFromJune(visits: seq<Visit>, m: nat)
    requires 5 <= m < 12
    ensures MonthlyData(visits, m) == MonthWindow(visits, m)
  {
    var r := MonthlyData(visits, m);
    var w := MonthWindow(visits, m);
    assert |r| == |w|;
    forall i | 0 <= i < 6 ensures r[i] == w[i] {
      assert WindowMonth(m, i) == m - 5 + i;
    }
  }
}
