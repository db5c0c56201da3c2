/**
 * The dashboard: client counts by classification and by area, and the visits counted as
 * "this week".
 */
module Dashboard {
  import opened Basics
  import opened Calendar
  import opened Types

  /** The clients of one classification. */
  function WithClassification(clients: seq<Client>, k: ClientClassification): (n: nat)
    ensures n <= |clients|
  {
    if clients == [] then 0
    else (if clients[0].classification == k then 1 else 0) + WithClassification(clients[1..], k)
  }

  /** `activeProspects`: the clients not yet Contratado. */
  function ActiveProspects(clients: seq<Client>): (n: nat)
    ensures n <= |clients|
  {
    if clients == [] then 0
    else (if clients[0].classification != Contracted then 1 else 0) + ActiveProspects(clients[1..])
  }

  /** `hotLeads`: the Quente clients, never more than the active prospects since a hot lead is not contracted. */
  function HotLeads(clients: seq<Client>): (n: nat)
    ensures n <= ActiveProspects(clients)
    ensures n == |Filter(clients, (c: Client) => c.classification == Hot)|
  {
    HotLeadsAreActive(clients);
    CountIsFilterLength(clients, Hot);
    WithClassification(clients, Hot)
  }

  /** Counting one classification is the length of the `filter` the source writes. */
  lemma {:induction false} CountIsFilterLength(clients: seq<Client>, k: ClientClassification)
    ensures WithClassification(clients, k) == |Filter(clients, (c: Client) => c.classification == k)|
  {
    if clients != [] {
      CountIsFilterLength(clients[1..], k);
    }
  }

  /** Every client is either an active prospect or Contratado. */
  lemma {:induction false} ActivePlusContracted(clients: seq<Client>)
    ensures ActiveProspects(clients) + WithClassification(clients, Contracted) == |clients|
  {
    if clients != [] {
      ActivePlusContracted(clients[1..]);
    }
  }

  /** A hot lead is not contracted, so there are never more hot leads than active prospects. */
  lemma {:induction false} HotLeadsAreActive(clients: seq<Client>)
    ensures WithClassification(clients, Hot) <= ActiveProspects(clients)
  {
    if clients != [] {
      HotLeadsAreActive(clients[1..]);
    }
  }

  /** The four classifications split the clients. */
  lemma {:induction false} ClassificationsPartition(clients: seq<Client>)
    ensures WithClassification(clients, Cold) + WithClassification(clients, Warm)
      + WithClassification(clients, Hot) + WithClassification(clients, Contracted) == |clients|
  {
    if clients != [] {
      ClassificationsPartition(clients[1..]);
    }
  }

  datatype ClassRow = ClassRow(classification: ClientClassification, count: nat)

  /** `classificationData`: one bar per classification, in enumeration order, zero counts included. */
  function ClassificationData(clients: seq<Client>): (r: seq<ClassRow>)
    ensures |r| == |Classifications|
    ensures forall i :: 0 <= i < |r| ==> r[i].classification == Classifications[i] && r[i].count <= |clients|
    ensures forall i :: 0 <= i < |r| ==> r[i].count == |Filter(clients, (c: Client) => c.classification == Classifications[i])|
  {
    assert forall i :: 0 <= i < |Classifications| ==>
      WithClassification(clients, Classifications[i]) == |Filter(clients, (c: Client) => c.classification == Classifications[i])| by {
      forall i | 0 <= i < |Classifications|
        ensures WithClassification(clients, Classifications[i]) == |Filter(clients, (c: Client) => c.classification == Classifications[i])|
      {
        CountIsFilterLength(clients, Classifications[i]);
      }
    }
    seq(|Classifications|, i requires 0 <= i < |Classifications| =>
      ClassRow(Classifications[i], WithClassification(clients, Classifications[i])))
  }

  function ClassTotal(rows: seq<ClassRow>): nat {
    if rows == [] then 0 else rows[0].count + ClassTotal(rows[1..])
  }

  /** The classification bars add up to the number of clients. */
  lemma ClassificationBarsAddUp(clients: seq<Client>)
    ensures ClassTotal(ClassificationData(clients)) == |clients|
  {
    var r := ClassificationData(clients);
    assert r[1..][1..][1..][1..] == [];
    assert ClassTotal(r) == r[0].count + r[1].count + r[2].count + r[3].count by {
      assert ClassTotal(r[1..][1..][1..]) == r[3].count;
      assert ClassTotal(r[1..][1..]) == r[2].count + r[3].count;
      assert ClassTotal(r[1..]) == r[1].count + r[2].count + r[3].count;
    }
    ClassificationsPartition(clients);
  }

  /** The clients of one area. */
  function InArea(clients: seq<Client>, a: Area): (n: nat)
    ensures n <= |clients|
  {
    if clients == [] then 0
    else (if clients[0].area == a then 1 else 0) + InArea(clients[1..], a)
  }

  lemma {:induction false} AreasPartition(clients: seq<Client>)
    ensures InArea(clients, Cidade) + InArea(clients, Margem) + InArea(clients, Moatize)
      + InArea(clients, EmpresaMineira) == |clients|
  {
    if clients != [] {
      AreasPartition(clients[1..]);
    }
  }

  datatype AreaSlice = AreaSlice(area: Area, value: nat)

  predicate NonEmptySlice(s: AreaSlice) {
    s.value > 0
  }

  function AllAreaSlices(clients: seq<Client>): (r: seq<AreaSlice>)
    ensures |r| == |Areas|
    ensures forall i :: 0 <= i < |r| ==> r[i] == AreaSlice(Areas[i], InArea(clients, Areas[i]))
  {
    seq(|Areas|, i requires 0 <= i < |Areas| => AreaSlice(Areas[i], InArea(clients, Areas[i])))
  }

  /** `areaData`: the areas that have clients, in enumeration order. */
  function AreaData(clients: seq<Client>): (r: seq<AreaSlice>)
    ensures forall i :: 0 <= i < |r| ==> r[i].value > 0
    ensures IsSubsequence(r, AllAreaSlices(clients))
  {
    Filter(AllAreaSlices(clients), NonEmptySlice)
  }

  /** Each slice carries its area's client count. */
  lemma AreaDataCounts(clients: seq<Client>, i: int)
    requires 0 <= i < |AreaData(clients)|
    ensures AreaData(clients)[i].value == InArea(clients, AreaData(clients)[i].area)
  {
    var all := AllAreaSlices(clients);
    var j :| 0 <= j < |all| && all[j] == AreaData(clients)[i];
  }

  /** Every area with a client has its slice. */
  lemma AreaDataListsEveryArea(clients: seq<Client>, a: Area)
    requires InArea(clients, a) > 0
    ensures AreaSlice(a, InArea(clients, a)) in AreaData(clients)
  {
    var all := AllAreaSlices(clients);
    var i := match a case Cidade => 0 case Margem => 1 case Moatize => 2 case EmpresaMineira => 3;
    assert all[i] == AreaSlice(a, InArea(clients, a));
  }

  function SliceTotal(slices: seq<AreaSlice>): nat {
    if slices == [] then 0 else slices[0].value + SliceTotal(slices[1..])
  }

  /** Dropping empty slices drops nothing from the total. */
  lemma {:induction false} DropEmptyKeepsTotal(slices: seq<AreaSlice>)
    ensures SliceTotal(Filter(slices, NonEmptySlice)) == SliceTotal(slices)
  {
    if slices != [] {
      DropEmptyKeepsTotal(slices[1..]);
    }
  }

  /** The pie's slices add up to the number of clients. */
  lemma AreaSlicesAddUp(clients: seq<Client>)
    ensures SliceTotal(AreaData(clients)) == |clients|
  {
    var all := AllAreaSlices(clients);
    DropEmptyKeepsTotal(all);
    assert all[1..][1..][1..][1..] == [];
    assert SliceTotal(all) == all[0].value + all[1].value + all[2].value + all[3].value by {
      assert SliceTotal(all[1..][1..][1..]) == all[3].value;
      assert SliceTotal(all[1..][1..]) == all[2].value + all[3].value;
      assert SliceTotal(all[1..]) == all[1].value + all[2].value + all[3].value;
    }
    AreasPartition(clients);
  }

  /** `startOfWeek`: `now` moved back to the last Sunday, keeping its time of day. */
  function StartOfWeek(now: int): (r: int)
    ensures r <= now && now - r < 7 * DayMs
    ensures r % DayMs == now % DayMs && Weekday(r) == 0
    ensures (r / DayMs - DayNumber(EpochSunday)) % 7 == 0
  {
    var r := now - Weekday(now) * DayMs;
    WeekdayCountsFromSunday(r);
    r
  }

  /** The visit counts as this week's: its day starts at or after `startOfWeek`, and it is not Cancelada. */
  predicate ThisWeek(now: int, v: Visit) {
    DayStartMs(v.date) >= StartOfWeek(now) && v.status != Cancelled
  }

  /** `visitsThisWeek`. */
  function VisitsThisWeek(visits: seq<Visit>, now: int): (n: nat)
    ensures n <= |visits|
    ensures n == |Filter(visits, v => ThisWeek(now, v))|
  {
    if visits == [] then 0
    else (if ThisWeek(now, visits[0]) then 1 else 0) + VisitsThisWeek(visits[1..], now)
  }

  /** The visits not Cancelada. */
  function NotCancelled(visits: seq<Visit>): nat {
    if visits == [] then 0
    else (if visits[0].status != Cancelled then 1 else 0) + NotCancelled(visits[1..])
  }

  /** A cancelled visit is never counted: the card shows at most the visits not Cancelada. */
  lemma {:induction false} WeekCountSkipsCancelled(visits: seq<Visit>, now: int)
    ensures VisitsThisWeek(visits, now) <= NotCancelled(visits)
    ensures forall v: Visit :: v.status == Cancelled ==> VisitsThisWeek([v] + visits, now) == VisitsThisWeek(visits, now)
  {
    if visits != [] {
      WeekCountSkipsCancelled(visits[1..], now);
    }
    forall v: Visit | v.status == Cancelled ensures VisitsThisWeek([v] + visits, now) == VisitsThisWeek(visits, now) {
      assert ([v] + visits)[1..] == visits;
    }
  }

  /**
   * Because `startOfWeek` keeps the current time of day, a visit on the week's first day counts
   * only when the dashboard is computed exactly at midnight.
   */
  lemma WeekStartDayNeedsMidnight(now: int, v: Visit)
    requires v.status != Cancelled && DayStartMs(v.date) == (now / DayMs - Weekday(now)) * DayMs
    ensures ThisWeek(now, v) <==> now % DayMs == 0
  {
  }

  /** There is no upper bound: any visit on a later day than now is counted, however far ahead. */
  lemma LaterVisitsCount(now: int, v: Visit)
    requires v.status != Cancelled && DayStartMs(v.date) > now
    ensures ThisWeek(now, v)
  {
  }
}
