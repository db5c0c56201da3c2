/**
 * The proximity monitor: once a minute the app looks at every visit and raises one alert for
 * each scheduled visit that starts within the next half hour and has not been alerted before.
 *
 * A tick is a pure function from (visits, clients, alerted ids, now) to the alerts it raises
 * and the grown set of alerted ids; a run of the monitor is a sequence of ticks that threads
 * the set through.
 */
module Monitor {
  import opened Basics
  import opened Text
  import opened Calendar
  import opened Types

  /** The widest lead time, in whole minutes, that still alerts. */
  const ImminentMinutes: int := 30

  /** `Math.round(diffMs / 60000)`: the nearest whole minute, halves rounded up. */
  function RoundToMinutes(diffMs: int): (r: int)
    ensures r * MinuteMs - 30_000 <= diffMs < r * MinuteMs + 30_000
  {
    (diffMs + 30_000) / MinuteMs
  }

  /** The alert window on rounded minutes: strictly in the future and at most half an hour. */
  predicate InImminentWindow(minutes: int) {
    0 < minutes <= ImminentMinutes
  }

  /** On the raw difference the window is 30 seconds up to, not including, 30 minutes 30 seconds. */
  lemma WindowInMs(diffMs: int)
    ensures InImminentWindow(RoundToMinutes(diffMs)) <==> 30_000 <= diffMs < 1_830_000
  {
    var m := RoundToMinutes(diffMs);
    if InImminentWindow(m) {
      assert 1 * MinuteMs <= m * MinuteMs <= 30 * MinuteMs;
    } else if m <= 0 {
      assert m * MinuteMs <= 0;
    } else {
      assert m * MinuteMs >= 31 * MinuteMs;
    }
  }

  /** The instant a visit starts; none when its time is empty or unreadable (an invalid `Date`). */
  function VisitInstant(v: Visit): Option<int> {
    match v.time
    case None => None
    case Some(t) => Some(InstantMs(v.date, t))
  }

  /** Rounded minutes from `now` until the visit starts; none stands for NaN. */
  function MinutesUntil(v: Visit, now: int): (r: Option<int>)
    ensures r.Some? <==> v.time.Some?
  {
    match VisitInstant(v)
    case None => None
    case Some(start) => Some(RoundToMinutes(start - now))
  }

  /** The visit starts within the alert window (a NaN difference never does). */
  predicate DueSoon(v: Visit, now: int) {
    MinutesUntil(v, now).Some? && InImminentWindow(MinutesUntil(v, now).value)
  }

  /** The three guards of `checkUpcomingVisits`: scheduled, not yet alerted, due soon. */
  predicate ShouldAlert(v: Visit, alerted: set<string>, now: int) {
    v.status == Scheduled && v.id !in alerted && DueSoon(v, now)
  }

  /** What one alert shows: the native notification's title and body, the toast repeats the title. */
  datatype Alert = Alert(visitId: string, title: string, body: string, minutes: int)

  /** `${client?.name}`: the name of the first client with the id, or "undefined" when none has it. */
  function ClientLabel(clients: seq<Client>, clientId: string): (r: string)
    ensures (exists i :: 0 <= i < |clients| && clients[i].id == clientId) ==> exists i :: FirstWithId(clients, i, clientId) && clients[i].name == r
    ensures (forall i :: 0 <= i < |clients| ==> clients[i].id != clientId) ==> r == "undefined"
  {
    match FindClient(clients, clientId)
    case Some(c) => c.name
    case None => "undefined"
  }

  const TitlePrefix: string := "Visita Iminente: "

  function MakeAlert(v: Visit, clients: seq<Client>, minutes: nat): Alert {
    Alert(v.id,
      TitlePrefix + ClientLabel(clients, v.clientId),
      "Sua visita de " + VisitTypeLabel(v.kind) + " começa em " + NatToString(minutes) + " minutos.",
      minutes)
  }

  /** The alert a visit that is due soon raises. */
  function AlertFor(v: Visit, clients: seq<Client>, now: int): (a: Alert)
    requires DueSoon(v, now)
    ensures a.visitId == v.id && InImminentWindow(a.minutes)
    ensures a.minutes == RoundToMinutes(VisitInstant(v).value - now)
    ensures |a.title| >= |TitlePrefix| && a.title[..|TitlePrefix|] == TitlePrefix
      && a.title[|TitlePrefix|..] == ClientLabel(clients, v.clientId)
    ensures exists digits :: (AllDigits(digits) && DecimalValue(digits) == a.minutes
                              && a.body == "Sua visita de " + VisitTypeLabel(v.kind) + " começa em " + digits + " minutos.")
  {
    var a := MakeAlert(v, clients, MinutesUntil(v, now).value);
    assert a.title[|TitlePrefix|..] == ClientLabel(clients, v.clientId);
    assert AllDigits(NatToString(a.minutes)) && DecimalValue(NatToString(a.minutes)) == a.minutes;
    a
  }

  /** The visit ids a list of alerts carries. */
  function AlertIds(alerts: seq<Alert>): (r: set<string>)
    ensures forall i :: 0 <= i < |alerts| ==> alerts[i].visitId in r
    ensures forall id :: id in r ==> exists i :: 0 <= i < |alerts| && alerts[i].visitId == id
  {
    if alerts == [] then {} else {alerts[0].visitId} + AlertIds(alerts[1..])
  }

  lemma {:induction false} AlertIdsAppend(a: seq<Alert>, b: seq<Alert>)
    ensures AlertIds(a + b) == AlertIds(a) + AlertIds(b)
  {
    if a == [] {
      assert a + b == b;
    } else {
      assert (a + b)[1..] == a[1..] + b;
      AlertIdsAppend(a[1..], b);
    }
  }

  /** No visit id appears on two alerts. */
  predicate DistinctIds(alerts: seq<Alert>) {
    forall i, j :: 0 <= i < j < |alerts| ==> alerts[i].visitId != alerts[j].visitId
  }

  datatype TickResult = TickResult(alerts: seq<Alert>, alerted: set<string>)

  /** Putting an alert with a fresh id in front keeps the ids distinct and adds that id. */
  lemma ConsAlert(a: Alert, rest: seq<Alert>, seen: set<string>)
    requires a.visitId in seen && DistinctIds(rest)
    requires forall i :: 0 <= i < |rest| ==> rest[i].visitId !in seen
    ensures DistinctIds([a] + rest)
    ensures AlertIds([a] + rest) == {a.visitId} + AlertIds(rest)
    ensures forall i :: 1 <= i < |[a] + rest| ==> ([a] + rest)[i] == rest[i - 1]
  {
    assert ([a] + rest)[1..] == rest;
  }

  /** Alert `a` is the one visit `v` raises against the set `alerted`. */
  predicate RaisedBy(a: Alert, v: Visit, clients: seq<Client>, alerted: set<string>, now: int) {
    ShouldAlert(v, alerted, now) && a == AlertFor(v, clients, now)
  }

  /**
   * One run of `checkUpcomingVisits`: the visits are looked at in order, and an alerted id
   * joins the set at once, so a later visit with the same id in the same tick stays silent.
   */
  function Tick(visits: seq<Visit>, clients: seq<Client>, alerted: set<string>, now: int): (r: TickResult)
    ensures r.alerted == alerted + AlertIds(r.alerts)
    ensures forall i :: 0 <= i < |r.alerts| ==> r.alerts[i].visitId !in alerted
    ensures DistinctIds(r.alerts)
    ensures |r.alerts| <= |visits|
  {
    if visits == [] then TickResult([], alerted)
    else
      var v := visits[0];
      if ShouldAlert(v, alerted, now) then
        var rest := Tick(visits[1..], clients, alerted + {v.id}, now);
        var a := AlertFor(v, clients, now);
        ConsAlert(a, rest.alerts, alerted + {v.id});
        TickResult([a] + rest.alerts, rest.alerted)
      else
        Tick(visits[1..], clients, alerted, now)
  }

  /** Every alert is raised by some visit of the list. */
  ghost predicate AllRaised(alerts: seq<Alert>, visits: seq<Visit>, clients: seq<Client>, alerted: set<string>, now: int) {
    forall i :: 0 <= i < |alerts| ==> RaisedBySome(alerts[i], visits, clients, alerted, now)
  }

  /** Some visit of the list raises alert `a`. */
  ghost predicate RaisedBySome(a: Alert, visits: seq<Visit>, clients: seq<Client>, alerted: set<string>, now: int) {
    exists k :: 0 <= k < |visits| && RaisedBy(a, visits[k], clients, alerted, now)
  }

  /** Every alert of a tick is raised by a visit of the list that the three guards admit. */
  lemma {:induction false} TickSound(visits: seq<Visit>, clients: seq<Client>, alerted: set<string>, now: int)
    ensures AllRaised(Tick(visits, clients, alerted, now).alerts, visits, clients, alerted, now)
  {
    if visits != [] {
      var v := visits[0];
      var grown := if ShouldAlert(v, alerted, now) then alerted + {v.id} else alerted;
      TickSound(visits[1..], clients, grown, now);
      var head := if ShouldAlert(v, alerted, now) then [AlertFor(v, clients, now)] else [];
      assert Tick(visits, clients, alerted, now).alerts == head + Tick(visits[1..], clients, grown, now).alerts;
      RaisedExtends(visits, clients, alerted, grown, now, head, Tick(visits[1..], clients, grown, now).alerts);
    }
  }

  /** Alerts raised by the head and by the tail against a larger set are raised by the whole list. */
  lemma RaisedExtends(visits: seq<Visit>, clients: seq<Client>, alerted: set<string>, grown: set<string>, now: int,
                      head: seq<Alert>, tail: seq<Alert>)
    requires visits != [] && alerted <= grown
    requires forall i :: 0 <= i < |head| ==> RaisedBy(head[i], visits[0], clients, alerted, now)
    requires AllRaised(tail, visits[1..], clients, grown, now)
    ensures AllRaised(head + tail, visits, clients, alerted, now)
  {
    var all := head + tail;
    forall i | 0 <= i < |all|
      ensures RaisedBySome(all[i], visits, clients, alerted, now)
    {
      if i < |head| {
        assert RaisedBy(all[i], visits[0], clients, alerted, now);
      } else {
        var j := i - |head|;
        assert all[i] == tail[j];
        assert RaisedBySome(tail[j], visits[1..], clients, grown, now);
        var k :| 0 <= k < |visits[1..]| && RaisedBy(tail[j], visits[1..][k], clients, grown, now);
        assert RaisedBy(all[i], visits[k + 1], clients, alerted, now);
      }
    }
  }

  /** Every visit the guards admit has its id in the set after the tick. */
  lemma {:induction false} TickComplete(visits: seq<Visit>, clients: seq<Client>, alerted: set<string>, now: int)
    ensures forall k :: 0 <= k < |visits| && ShouldAlert(visits[k], alerted, now) ==>
      visits[k].id in Tick(visits, clients, alerted, now).alerted
  {
    if visits != [] {
      var v := visits[0];
      var grown := if ShouldAlert(v, alerted, now) then alerted + {v.id} else alerted;
      TickComplete(visits[1..], clients, grown, now);
      var r := Tick(visits, clients, alerted, now);
      assert r.alerted == Tick(visits[1..], clients, grown, now).alerted;
      forall k | 0 < k < |visits| && ShouldAlert(visits[k], alerted, now)
        ensures visits[k].id in r.alerted
      {
        assert visits[1..][k - 1] == visits[k];
        if visits[k].id !in grown {
          assert ShouldAlert(visits[1..][k - 1], grown, now);
        }
      }
    }
  }

  /**
   * The alerts a tick raises when ids are unique, stated without the running set: one alert,
   * in list order, for every visit the three guards admit against the initial set.
   */
  function ExpectedAlerts(visits: seq<Visit>, clients: seq<Client>, alerted: set<string>, now: int): seq<Alert> {
    if visits == [] then []
    else
      (if ShouldAlert(visits[0], alerted, now) then [AlertFor(visits[0], clients, now)] else [])
      + ExpectedAlerts(visits[1..], clients, alerted, now)
  }

  /** Ids no visit carries do not change which visits are admitted. */
  lemma {:induction false} ExpectedIgnoresForeignIds(visits: seq<Visit>, clients: seq<Client>, alerted: set<string>,
                                                     extra: string, now: int)
    requires forall k :: 0 <= k < |visits| ==> visits[k].id != extra
    ensures ExpectedAlerts(visits, clients, alerted + {extra}, now) == ExpectedAlerts(visits, clients, alerted, now)
  {
    if visits != [] {
      ExpectedIgnoresForeignIds(visits[1..], clients, alerted, extra, now);
    }
  }

  /** With unique visit ids the running set only matters across ticks: a tick alerts exactly the admitted visits. */
  lemma {:induction false} TickIsExpected(visits: seq<Visit>, clients: seq<Client>, alerted: set<string>, now: int)
    requires UniqueVisitIds(visits)
    ensures Tick(visits, clients, alerted, now).alerts == ExpectedAlerts(visits, clients, alerted, now)
  {
    if visits != [] {
      var v := visits[0];
      assert UniqueVisitIds(visits[1..]);
      if ShouldAlert(v, alerted, now) {
        TickIsExpected(visits[1..], clients, alerted + {v.id}, now);
        ExpectedIgnoresForeignIds(visits[1..], clients, alerted, v.id, now);
      } else {
        TickIsExpected(visits[1..], clients, alerted, now);
      }
    }
  }

  /** With unique ids, a visit is alerted in a tick iff the three guards admit it. */
  lemma AlertedIffAdmitted(visits: seq<Visit>, clients: seq<Client>, alerted: set<string>, now: int, k: int)
    requires UniqueVisitIds(visits) && 0 <= k < |visits|
    ensures visits[k].id in AlertIds(Tick(visits, clients, alerted, now).alerts) <==> ShouldAlert(visits[k], alerted, now)
  {
    var r := Tick(visits, clients, alerted, now);
    if visits[k].id in AlertIds(r.alerts) {
      var i :| 0 <= i < |r.alerts| && r.alerts[i].visitId == visits[k].id;
      TickSound(visits, clients, alerted, now);
      assert RaisedBySome(r.alerts[i], visits, clients, alerted, now);
      var k' :| 0 <= k' < |visits| && RaisedBy(r.alerts[i], visits[k'], clients, alerted, now);
      assert visits[k'].id == visits[k].id;
      assert k' == k;
    }
    if ShouldAlert(visits[k], alerted, now) {
      TickComplete(visits, clients, alerted, now);
    }
  }

  /** A visit due now or in the past never alerts, whatever its status. */
  lemma PastVisitNeverAlerts(v: Visit, alerted: set<string>, now: int)
    requires v.time.Some? && VisitInstant(v).value <= now
    ensures !ShouldAlert(v, alerted, now)
  {
    WindowInMs(VisitInstant(v).value - now);
  }

  /** An alerted visit whose client cannot be found still alerts, titled with "undefined". */
  lemma MissingClientStillAlerts(v: Visit, clients: seq<Client>, alerted: set<string>, now: int)
    requires ShouldAlert(v, alerted, now)
    requires forall i :: 0 <= i < |clients| ==> clients[i].id != v.clientId
    ensures Tick([v], clients, alerted, now).alerts == [AlertFor(v, clients, now)]
    ensures AlertFor(v, clients, now).title == "Visita Iminente: undefined"
  {
  }

  /** What the monitor sees on one tick: the current lists and clock. */
  datatype Observation = Observation(visits: seq<Visit>, clients: seq<Client>, now: int)

  /** A run of ticks threading the alerted set, which is never cleared. */
  function RunTicks(ticks: seq<Observation>, alerted: set<string>): (r: TickResult)
    ensures r.alerted == alerted + AlertIds(r.alerts)
    ensures forall i :: 0 <= i < |r.alerts| ==> r.alerts[i].visitId !in alerted
  {
    if ticks == [] then TickResult([], alerted)
    else
      var first := Tick(ticks[0].visits, ticks[0].clients, alerted, ticks[0].now);
      var rest := RunTicks(ticks[1..], first.alerted);
      AlertIdsAppend(first.alerts, rest.alerts);
      var all := first.alerts + rest.alerts;
      assert forall i :: |first.alerts| <= i < |all| ==> all[i] == rest.alerts[i - |first.alerts|];
      TickResult(all, rest.alerted)
  }

  /** Over any run of ticks a visit id alerts at most once. */
  lemma {:induction false} RunTicksAlertOnce(ticks: seq<Observation>, alerted: set<string>)
    ensures DistinctIds(RunTicks(ticks, alerted).alerts)
  {
    if ticks != [] {
      var first := Tick(ticks[0].visits, ticks[0].clients, alerted, ticks[0].now);
      var rest := RunTicks(ticks[1..], first.alerted);
      RunTicksAlertOnce(ticks[1..], first.alerted);
      var all := first.alerts + rest.alerts;
      assert RunTicks(ticks, alerted).alerts == all;
      forall i, j | 0 <= i < j < |all| ensures all[i].visitId != all[j].visitId {
        if j >= |first.alerts| {
          assert all[j] == rest.alerts[j - |first.alerts|];
          if i < |first.alerts| {
            assert all[i].visitId in first.alerted;
          } else {
            assert all[i] == rest.alerts[i - |first.alerts|];
          }
        }
      }
    }
  }

  /** Once a visit has alerted, no later tick alerts it again, whatever its status becomes. */
  lemma {:induction false} AlertedNeverAgain(ticks: seq<Observation>, alerted: set<string>, id: string)
    requires id in alerted
    ensures forall i :: 0 <= i < |RunTicks(ticks, alerted).alerts| ==> RunTicks(ticks, alerted).alerts[i].visitId != id
    ensures id in RunTicks(ticks, alerted).alerted
  {
  }

  /** The first tick of a run, and the run of the rest from the set it leaves. */
  function TickThenRun(o: Observation, rest: seq<Observation>, alerted: set<string>): TickResult {
    var first := Tick(o.visits, o.clients, alerted, o.now);
    var tail := RunTicks(rest, first.alerted);
    TickResult(first.alerts + tail.alerts, tail.alerted)
  }

  /** Splitting a run in two: the second part starts from the set the first part leaves. */
  lemma {:induction false} RunTicksAppendAlerted(a: seq<Observation>, b: seq<Observation>, alerted: set<string>)
    ensures RunTicks(a + b, alerted).alerted == RunTicks(b, RunTicks(a, alerted).alerted).alerted
  {
    if a == [] {
      assert a + b == b;
    } else {
      var ab := a + b;
      assert ab[0] == a[0] && ab[1..] == a[1..] + b;
      var first := Tick(a[0].visits, a[0].clients, alerted, a[0].now);
      RunTicksAppendAlerted(a[1..], b, first.alerted);
      UnfoldRun(ab, alerted);
      UnfoldRun(a, alerted);
    }
  }

  /** Splitting a run in two: its alerts are the first part's followed by the second part's. */
  lemma {:induction false} RunTicksAppend(a: seq<Observation>, b: seq<Observation>, alerted: set<string>)
    ensures RunTicks(a + b, alerted).alerts == RunTicks(a, alerted).alerts + RunTicks(b, RunTicks(a, alerted).alerted).alerts
  {
    if a == [] {
      assert a + b == b;
    } else {
      var ab := a + b;
      assert ab[0] == a[0] && ab[1..] == a[1..] + b;
      var first := Tick(a[0].visits, a[0].clients, alerted, a[0].now);
      RunTicksAppend(a[1..], b, first.alerted);
      UnfoldRun(ab, alerted);
      UnfoldRun(a, alerted);
      var mid := RunTicks(a[1..], first.alerted);
      var last := RunTicks(b, mid.alerted);
      assert RunTicks(a, alerted).alerted == mid.alerted;
      Associative(first.alerts, mid.alerts, last.alerts);
    }
  }

  lemma Associative<T>(x: seq<T>, y: seq<T>, z: seq<T>)
    ensures x + (y + z) == (x + y) + z
  {
  }

  lemma UnfoldRun(ticks: seq<Observation>, alerted: set<string>)
    requires ticks != []
    ensures RunTicks(ticks, alerted) == TickThenRun(ticks[0], ticks[1..], alerted)
  {
  }

  /** A visit on 10 March 2025 at 10:00, for a worked run. */
  const SampleVisit: Visit := Visit("v1", "c1", Date(2025, 3, 10), Some(TimeOfDay(10, 0)), Scheduled,
                                    Prospeccao, "", [], None)

  const SampleNow: int := InstantMs(Date(2025, 3, 10), TimeOfDay(9, 45))
  const SampleLater: int := InstantMs(Date(2025, 3, 10), TimeOfDay(9, 50))
  /** The alert expected at 09:45, its text pieced together as the template literals build it. */
  const SampleAlert: Alert :=
    Alert("v1", TitlePrefix + "undefined", "Sua visita de " + "Prospecção" + " começa em " + "15" + " minutos.", 15)

  /** At 09:45 the visit is 15 minutes away and, its client unknown, raises the sample alert. */
  lemma SampleFirstTick()
    ensures Tick([SampleVisit], [], {}, SampleNow) == TickResult([SampleAlert], {"v1"})
  {
    SampleDue();
    SampleText();
    assert [SampleVisit][1..] == [];
  }

  lemma SampleDue()
    ensures MinutesUntil(SampleVisit, SampleNow) == Some(15)
  {
    assert VisitInstant(SampleVisit).value - SampleNow == 15 * MinuteMs;
  }

  lemma SampleText()
    requires MinutesUntil(SampleVisit, SampleNow) == Some(15)
    ensures AlertFor(SampleVisit, [], SampleNow) == SampleAlert
  {
    SampleMinutesText();
  }

  lemma SampleMinutesText()
    ensures NatToString(15) == "15"
  {
    assert NatToString(1) == "1";
  }

  /** At 09:50 the visit is still due soon, but its id is already in the set. */
  lemma SampleSecondTick()
    ensures Tick([SampleVisit], [], {"v1"}, SampleLater) == TickResult([], {"v1"})
  {
    assert !ShouldAlert(SampleVisit, {"v1"}, SampleLater);
    assert [SampleVisit][1..] == [];
  }

  /** Over the two ticks the visit alerts exactly once. */
  lemma SampleRun()
    ensures RunTicks([Observation([SampleVisit], [], SampleNow), Observation([SampleVisit], [], SampleLater)], {}).alerts
      == [SampleAlert]
  {
    var ticks := [Observation([SampleVisit], [], SampleNow), Observation([SampleVisit], [], SampleLater)];
    SampleFirstTick();
    SampleSecondTick();
    UnfoldRun(ticks, {});
    UnfoldRun(ticks[1..], {"v1"});
    assert ticks[1..][1..] == [];
  }
}
