/**
 * The task panel: the quick-add form, and one list that merges the manual tasks with the
 * upcoming visits shown as read-only pseudo-tasks, ordered by due date.
 */
module TaskManager {
  import opened Basics
  import opened Text
  import opened Calendar
  import opened Types
  import opened Sorting
  import App

  /** `handleSubmit`: a title that is blank once trimmed adds nothing; otherwise an open task, title as typed. */
  function HandleSubmit(title: string, priority: TaskPriority, due: Date, id: string): (r: Option<Task>)
    ensures r.None? <==> Trim(title) == ""
    ensures r.Some? ==> r.value == Task(id, title, due, priority, false, None)
  {
    if Trim(title) == "" then None
    else Some(Task(id, title, due, priority, false, None))
  }

  /** Whatever the panel accepts the modal form accepts too, since a blank-free title is not empty. */
  lemma PanelStricterThanModal(tasks: seq<Task>, title: string, priority: TaskPriority, due: Date, id: string)
    requires HandleSubmit(title, priority, due, id).Some?
    ensures App.AddTaskFromModal(tasks, App.TaskDraft(title, priority, due), id)
      == Success(App.AddTask(tasks, HandleSubmit(title, priority, due, id).value))
  {
    assert title != "";
  }

  /** One row of the panel: a manual task, or a visit shown as a task. */
  datatype Item = Item(id: string, title: string, dueDate: Date, priority: TaskPriority, completed: bool, isVisit: bool)

  /** Two decimal digits, as 'HH:mm' holds the hour and the minute. */
  function TwoDigits(n: nat): (r: string)
    requires n < 100
    ensures |r| == 2 && AllDigits(r) && DecimalValue(r) == n
  {
    var r := [DigitChar(n / 10), DigitChar(n % 10)];
    assert r[..1] == [DigitChar(n / 10)] && r[..1][..0] == [];
    assert DigitValue(r[0]) == n / 10 && DigitValue(r[1]) == n % 10;
    assert DecimalValue(r[..1]) == n / 10;
    assert DecimalValue(r) == DecimalValue(r[..1]) * 10 + n % 10;
    r
  }

  /** The 'HH:mm' text of a time; an empty field stays empty. */
  function TimeText(time: Option<TimeOfDay>): (r: string)
    ensures time.None? ==> r == ""
    ensures time.Some? ==> |r| == 5 && r[2] == ':' && AllDigits(r[..2]) && AllDigits(r[3..])
    ensures time.Some? ==> DecimalValue(r[..2]) == time.value.hour && DecimalValue(r[3..]) == time.value.minute
  {
    match time
    case None => ""
    case Some(t) =>
      var r := TwoDigits(t.hour) + ":" + TwoDigits(t.minute);
      assert r[..2] == TwoDigits(t.hour) && r[3..] == TwoDigits(t.minute);
      r
  }

  function TaskItem(t: Task): Item {
    Item(t.id, t.title, t.dueDate, t.priority, t.completed, false)
  }

  /** A visit as a pseudo-task: urgent, due on its date, done iff Realizada. */
  function VisitItem(v: Visit): (r: Item)
    ensures r.id == "visit-" + v.id && r.dueDate == v.date && r.priority == High && r.isVisit
    ensures r.completed <==> v.status == Completed
  {
    Item("visit-" + v.id, "Visita: " + VisitTypeLabel(v.kind) + " @ " + TimeText(v.time), v.date, High,
      StatusLabel(v.status) == "Realizada", true)
  }

  /** `new Date(v.date) >= new Date()`: the visit's day starts at or after now, whatever its status. */
  predicate IsUpcoming(now: int, v: Visit) {
    DayStartMs(v.date) >= now
  }

  /**
   * Once today's midnight has passed, the upcoming visits are exactly those dated after today:
   * a visit later today is already left out.
   */
  lemma UpcomingIffAfterToday(now: int, today: Date, v: Visit)
    requires ValidDate(today) && ValidDate(v.date)
    requires DayStartMs(today) < now < DayStartMs(today) + DayMs
    ensures IsUpcoming(now, v) <==> Before(today, v.date)
  {
    DayNumberOrder(today, v.date);
  }

  /** `upcomingVisitsAsTasks`. */
  function UpcomingVisitItems(visits: seq<Visit>, now: int): (r: seq<Item>)
    ensures |r| == |Filter(visits, v => IsUpcoming(now, v))|
    ensures forall i :: 0 <= i < |r| ==> r[i] == VisitItem(Filter(visits, v => IsUpcoming(now, v))[i])
  {
    var upcoming := Filter(visits, v => IsUpcoming(now, v));
    seq(|upcoming|, i requires 0 <= i < |upcoming| => VisitItem(upcoming[i]))
  }

  /** A pseudo-task comes only from a visit whose day has not started before now; its status is not looked at. */
  lemma PseudoTasksAreUpcoming(visits: seq<Visit>, now: int, i: int)
    requires 0 <= i < |UpcomingVisitItems(visits, now)|
    ensures exists k :: 0 <= k < |visits| && IsUpcoming(now, visits[k]) && UpcomingVisitItems(visits, now)[i] == VisitItem(visits[k])
  {
    var upcoming := Filter(visits, v => IsUpcoming(now, v));
    var v := upcoming[i];
    assert v in visits;
    var k :| 0 <= k < |visits| && visits[k] == v;
  }

  function TaskItems(tasks: seq<Task>): (r: seq<Item>)
    ensures |r| == |tasks|
    ensures forall i :: 0 <= i < |r| ==> r[i] == TaskItem(tasks[i])
  {
    seq(|tasks|, i requires 0 <= i < |tasks| => TaskItem(tasks[i]))
  }

  /** The comparator `new Date(a.dueDate).getTime() - new Date(b.dueDate).getTime()`, as a key. */
  function DueKey(item: Item): int {
    DayStartMs(item.dueDate)
  }

  /** `allItems`: manual tasks then pseudo-tasks, stably sorted by due date. */
  function AllItems(tasks: seq<Task>, visits: seq<Visit>, now: int): (r: seq<Item>)
    ensures |r| == |tasks| + |Filter(visits, v => IsUpcoming(now, v))|
    ensures SortedBy(r, DueKey)
    ensures multiset(r) == multiset(TaskItems(tasks) + UpcomingVisitItems(visits, now))
    ensures forall k :: WithKey(r, DueKey, k) == WithKey(TaskItems(tasks), DueKey, k) + WithKey(UpcomingVisitItems(visits, now), DueKey, k)
  {
    var merged := TaskItems(tasks) + UpcomingVisitItems(visits, now);
    var r := SortBy(merged, DueKey);
    assert forall k :: WithKey(r, DueKey, k) == WithKey(TaskItems(tasks), DueKey, k) + WithKey(UpcomingVisitItems(visits, now), DueKey, k) by {
      forall k ensures WithKey(r, DueKey, k) == WithKey(TaskItems(tasks), DueKey, k) + WithKey(UpcomingVisitItems(visits, now), DueKey, k) {
        WithKeyAppend(TaskItems(tasks), UpcomingVisitItems(visits, now), DueKey, k);
      }
    }
    r
  }

  /** Among items due the same day, every manual task is listed before every visit. */
  lemma TasksBeforeVisitsOnTies(tasks: seq<Task>, visits: seq<Visit>, now: int, k: int, i: int, j: int)
    requires 0 <= i < j < |WithKey(AllItems(tasks, visits, now), DueKey, k)|
    requires WithKey(AllItems(tasks, visits, now), DueKey, k)[i].isVisit
    ensures WithKey(AllItems(tasks, visits, now), DueKey, k)[j].isVisit
  {
    var a := WithKey(TaskItems(tasks), DueKey, k);
    var b := WithKey(UpcomingVisitItems(visits, now), DueKey, k);
    ManualPart(tasks, k);
    VisitPart(visits, now, k);
    ManualThenVisits(a, b, i, j);
  }

  lemma ManualThenVisits(a: seq<Item>, b: seq<Item>, i: int, j: int)
    requires forall x :: 0 <= x < |a| ==> !a[x].isVisit
    requires forall x :: 0 <= x < |b| ==> b[x].isVisit
    requires 0 <= i < j < |a + b| && (a + b)[i].isVisit
    ensures (a + b)[j].isVisit
  {
    assert i >= |a|;
    assert (a + b)[j] == b[j - |a|];
  }

  lemma ManualPart(tasks: seq<Task>, k: int)
    ensures forall x :: 0 <= x < |WithKey(TaskItems(tasks), DueKey, k)| ==> !WithKey(TaskItems(tasks), DueKey, k)[x].isVisit
  {
    var a := WithKey(TaskItems(tasks), DueKey, k);
    forall x | 0 <= x < |a| ensures !a[x].isVisit {
      TaskItemsAreManual(tasks, a[x]);
    }
  }

  lemma VisitPart(visits: seq<Visit>, now: int, k: int)
    ensures forall x :: 0 <= x < |WithKey(UpcomingVisitItems(visits, now), DueKey, k)| ==> WithKey(UpcomingVisitItems(visits, now), DueKey, k)[x].isVisit
  {
    var b := WithKey(UpcomingVisitItems(visits, now), DueKey, k);
    forall x | 0 <= x < |b| ensures b[x].isVisit {
      VisitItemsAreVisits(visits, now, b[x]);
    }
  }

  lemma TaskItemsAreManual(tasks: seq<Task>, x: Item)
    requires x in TaskItems(tasks)
    ensures !x.isVisit
  {
    var i :| 0 <= i < |TaskItems(tasks)| && TaskItems(tasks)[i] == x;
  }

  lemma VisitItemsAreVisits(visits: seq<Visit>, now: int, x: Item)
    requires x in UpcomingVisitItems(visits, now)
    ensures x.isVisit
  {
    var i :| 0 <= i < |UpcomingVisitItems(visits, now)| && UpcomingVisitItems(visits, now)[i] == x;
  }

  /** The toggle and delete buttons act on manual tasks only: a pseudo-task names no task to change. */
  function ActionTarget(item: Item): (r: Option<string>)
    ensures r.None? <==> item.isVisit
    ensures r.Some? ==> r.value == item.id
  {
    if item.isVisit then None else Some(item.id)
  }

  /**
   * Acting on a manual task's row flips the task it came from, and with it every task sharing
   * its id; when no other task shares the id, every other task is left as it was.
   */
  lemma ManualRowTogglesItsTask(tasks: seq<Task>, i: int)
    requires 0 <= i < |tasks|
    ensures ActionTarget(TaskItems(tasks)[i]) == Some(tasks[i].id)
    ensures App.ToggleTask(tasks, tasks[i].id)[i].completed == !tasks[i].completed
    ensures forall j :: 0 <= j < |tasks| ==>
      (App.ToggleTask(tasks, tasks[i].id)[j]
         == if tasks[j].id == tasks[i].id then tasks[j].(completed := !tasks[j].completed) else tasks[j])
    ensures (forall j :: 0 <= j < |tasks| && j != i ==> tasks[j].id != tasks[i].id) ==>
      (forall j :: 0 <= j < |tasks| && j != i ==> App.ToggleTask(tasks, tasks[i].id)[j] == tasks[j])
  {
  }
}
