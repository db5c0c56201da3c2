/**
 * The agenda screen: the seven days from today, the visits of the selected day in time order,
 * the actions offered on each visit, and the draft of opportunities recorded while completing
 * a visit.
 */
module Schedule {
  import opened Basics
  import opened Text
  import opened Calendar
  import opened Types
  import opened Sorting

  /** `count` consecutive calendar days from `start` (`setDate(getDate() + i)` for each i). */
  function DaysFrom(start: Date, count: nat): (r: seq<Date>)
    ensures |r| == count
    ensures count > 0 ==> r[0] == start
    ensures ValidDate(start) ==> forall i :: 0 <= i < count ==> ValidDate(r[i]) && DayNumber(r[i]) == DayNumber(start) + i
    decreases count
  {
    if count == 0 then []
    else [start] + DaysFrom(NextDay(start), count - 1)
  }

  /** The date strip: today and the six days after it. */
  function WeekDates(today: Date): (r: seq<Date>)
    ensures |r| == 7 && r[0] == today
    ensures ValidDate(today) ==> forall i :: 0 <= i < 7 ==> ValidDate(r[i]) && DayNumber(r[i]) == DayNumber(today) + i
  {
    DaysFrom(today, 7)
  }

  /** Each day of the strip comes right after the one before it, so no day repeats. */
  lemma WeekDatesConsecutive(today: Date, i: int, j: int)
    requires ValidDate(today) && 0 <= i < j < 7
    ensures Before(WeekDates(today)[i], WeekDates(today)[j])
    ensures j == i + 1 ==> WeekDates(today)[j] == NextDay(WeekDates(today)[i])
  {
    var w := WeekDates(today);
    DayNumberOrder(w[i], w[j]);
    if j == i + 1 {
      DayNumberOrder(w[j], NextDay(w[i]));
    }
  }

  /**
   * The order `a.time.localeCompare(b.time)` gives 'HH:mm' strings: zero-padded, so it is the
   * order of minutes since midnight, and an empty time sorts before every other.
   */
  function TimeKey(v: Visit): (k: int)
    ensures v.time.None? ==> k == -1
    ensures v.time.Some? ==> 0 <= k < 1440
  {
    match v.time
    case None => -1
    case Some(t) => MinutesOfDay(t)
  }

  /** Minutes order is clock order: the earlier hour first, then the earlier minute. */
  lemma TimeKeyIsClockOrder(a: Visit, b: Visit)
    requires a.time.Some? && b.time.Some?
    ensures TimeKey(a) < TimeKey(b) <==>
      a.time.value.hour < b.time.value.hour || (a.time.value.hour == b.time.value.hour && a.time.value.minute < b.time.value.minute)
  {
  }

  predicate OnDay(day: Date, v: Visit) {
    v.date == day
  }

  /** `filteredVisits`: the visits of the selected day, earliest first, ties in list order. */
  function DayAgenda(visits: seq<Visit>, day: Date): (r: seq<Visit>)
    ensures SortedBy(r, TimeKey)
    ensures forall k :: WithKey(r, TimeKey, k) == WithKey(DayVisits(visits, day), TimeKey, k)
    ensures multiset(r) == multiset(DayVisits(visits, day))
  {
    SortBy(DayVisits(visits, day), TimeKey)
  }

  /** The visits of the day in list order. */
  function DayVisits(visits: seq<Visit>, day: Date): (r: seq<Visit>)
    ensures forall i :: 0 <= i < |r| ==> r[i].date == day
    ensures IsSubsequence(r, visits)
  {
    Filter(visits, v => OnDay(day, v))
  }

  /** Exactly the visits of the day are on the agenda, each as often as in the list. */
  lemma DayAgendaMembers(visits: seq<Visit>, day: Date, v: Visit)
    ensures v in DayAgenda(visits, day) <==> v in visits && v.date == day
    ensures forall i :: 0 <= i < |DayAgenda(visits, day)| ==> DayAgenda(visits, day)[i].date == day
  {
    DayAgendaCounts(visits, day, v);
    var r := DayAgenda(visits, day);
    assert v in r <==> v in multiset(r);
    assert v in visits <==> v in multiset(visits);
    forall i | 0 <= i < |r| ensures r[i].date == day {
      DayAgendaCounts(visits, day, r[i]);
      assert r[i] in multiset(r);
    }
  }

  /** The agenda holds each visit of the day as often as the list does, and nothing else. */
  lemma DayAgendaCounts(visits: seq<Visit>, day: Date, v: Visit)
    ensures multiset(DayAgenda(visits, day))[v] == if v.date == day then multiset(visits)[v] else 0
  {
    FilterMultiplicity(visits, w => OnDay(day, w), v);
    assert DayVisits(visits, day) == Filter(visits, w => OnDay(day, w));
  }

  predicate HasClient(clients: seq<Client>, v: Visit) {
    FindClient(clients, v.clientId).Some?
  }

  /** The rows drawn: agenda visits whose client is found, the others return nothing. */
  function RenderedRows(agenda: seq<Visit>, clients: seq<Client>): (r: seq<Visit>)
    ensures forall i :: 0 <= i < |r| ==> r[i] in agenda && HasClient(clients, r[i])
    ensures forall i :: 0 <= i < |agenda| && HasClient(clients, agenda[i]) ==> agenda[i] in r
    ensures IsSubsequence(r, agenda)
  {
    Filter(agenda, v => HasClient(clients, v))
  }

  /**
   * The header counts the whole agenda, so it counts visits whose client is missing; with such
   * a visit it shows more than the rows drawn.
   */
  lemma HeaderCountsMissingClients(visits: seq<Visit>, clients: seq<Client>, day: Date)
    ensures |RenderedRows(DayAgenda(visits, day), clients)| <= |DayAgenda(visits, day)|
    ensures (exists i :: 0 <= i < |DayAgenda(visits, day)| && !HasClient(clients, DayAgenda(visits, day)[i]))
      ==> |RenderedRows(DayAgenda(visits, day), clients)| < |DayAgenda(visits, day)|
  {
    var agenda := DayAgenda(visits, day);
    if exists i :: 0 <= i < |agenda| && !HasClient(clients, agenda[i]) {
      var i :| 0 <= i < |agenda| && !HasClient(clients, agenda[i]);
      FilterDropsRejected(agenda, v => HasClient(clients, v), i);
    }
  }

  /** The cancel and complete buttons are shown for every visit not yet Realizada. */
  predicate OffersActions(v: Visit) {
    v.status != Completed
  }

  /** A cancelled visit still offers both actions; only a completed one offers none. */
  lemma ActionsOnEveryOpenStatus(v: Visit)
    ensures OffersActions(v) <==> v.status == Scheduled || v.status == Cancelled
  {
  }

  /** The completion modal: the visit being completed, the opportunities so far, and the two inputs. */
  datatype CompletionDraft = CompletionDraft(
    completing: Option<string>,
    opportunities: seq<Opportunity>,
    service: string,
    valueInput: string)

  /** `Number(input) || 0`: the number typed, 0 for an empty or unreadable entry. */
  function NumberOrZero(input: string): real {
    ParseDecimal(input).GetOr(0.0)
  }

  /** A count typed in the value field is read back as that count; an empty field reads as 0. */
  lemma NumberOrZeroReadsCounts(n: nat)
    ensures NumberOrZero(NatToString(n)) == n as real
    ensures NumberOrZero("") == 0.0
  {
    NatToStringParses(n);
  }

  /** The opportunity the '+' button records for the selected service. */
  function NewOpportunity(d: CompletionDraft, id: string): (o: Opportunity)
    ensures o.id == id && o.serviceType == d.service && o.description == "Interesse em " + d.service
    ensures o.value == Some(NumberOrZero(d.valueInput))
  {
    Opportunity(id, "Interesse em " + d.service, Some(NumberOrZero(d.valueInput)), d.service)
  }

  /** `handleAddOpportunity`: nothing without a service; otherwise one more opportunity and an empty value field. */
  function AddOpportunity(d: CompletionDraft, id: string): (r: CompletionDraft)
    ensures d.service == "" ==> r == d
    ensures d.service != "" ==> r.opportunities == d.opportunities + [NewOpportunity(d, id)] && r.valueInput == ""
    ensures r.completing == d.completing && r.service == d.service
  {
    if d.service == "" then d
    else d.(opportunities := d.opportunities + [NewOpportunity(d, id)], valueInput := "")
  }

  /** What `onCompleteVisit` receives. */
  datatype Completion = Completion(visitId: string, opportunities: seq<Opportunity>)

  datatype ConfirmOutcome = ConfirmOutcome(sent: Option<Completion>, draft: CompletionDraft)

  /** `confirmCompletion`: with a visit in progress, hand over the draft and empty it; otherwise do nothing. */
  function ConfirmCompletion(d: CompletionDraft): (r: ConfirmOutcome)
    ensures d.completing.None? || d.completing == Some("") ==> r == ConfirmOutcome(None, d)
    ensures d.completing.Some? && d.completing.value != "" ==>
      r.sent == Some(Completion(d.completing.value, d.opportunities))
      && r.draft.completing.None? && r.draft.opportunities == []
  {
    match d.completing
    case Some(id) =>
      if id == "" then ConfirmOutcome(None, d)
      else ConfirmOutcome(Some(Completion(id, d.opportunities)), d.(completing := None, opportunities := []))
    case None => ConfirmOutcome(None, d)
  }

  /** The close button: the modal is dismissed and the opportunities recorded so far are dropped. */
  function DismissCompletion(d: CompletionDraft): (r: CompletionDraft)
    ensures r.completing.None? && r.opportunities == []
    ensures r.service == d.service && r.valueInput == d.valueInput
  {
    d.(completing := None, opportunities := [])
  }

  /** Adding two opportunities and confirming hands over both, in the order they were added. */
  lemma ConfirmHandsOverInOrder(d: CompletionDraft, first: string, second: string)
    requires d.completing.Some? && d.completing.value != "" && d.service != "" && d.opportunities == []
    ensures var d1 := AddOpportunity(d, first);
      ConfirmCompletion(AddOpportunity(d1, second)).sent
        == Some(Completion(d.completing.value, [NewOpportunity(d, first), NewOpportunity(d1, second)]))
  {
    var o1 := NewOpportunity(d, first);
    var d1 := AddOpportunity(d, first);
    assert d1.opportunities == [o1];
    var o2 := NewOpportunity(d1, second);
    var d2 := AddOpportunity(d1, second);
    assert d2.opportunities == [o1, o2];
    assert d2.completing == d.completing;
  }

  /** After a confirmation nothing more is sent until another visit is picked. */
  lemma ConfirmOnlyOnce(d: CompletionDraft)
    ensures ConfirmCompletion(ConfirmCompletion(d).draft).sent.None?
  {
    var r := ConfirmCompletion(d);
    assert r.draft.completing.None? || r.draft.completing == Some("");
  }
}
