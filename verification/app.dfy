/**
 * The state handlers of the app shell: adding and updating clients, booking visits, changing a
 * visit's status, and adding, toggling and deleting tasks. Each handler is a pure function from
 * the current lists to the next ones; a refused request returns the reason instead.
 *
 * Ids come from the clock (`Date.now()`), so every handler that creates a record takes the new
 * id as a parameter, and "today" is a parameter as well.
 */
module App {
  import opened Basics
  import opened Text
  import opened Calendar
  import opened Types
  import opened Validators
  import Monitor

  /** The three lists the app keeps in state. */
  datatype Store = Store(clients: seq<Client>, visits: seq<Visit>, tasks: seq<Task>)

  /** Why a form was refused; each one is shown as an error toast. */
  datatype Refusal =
    | MissingNameOrContact
    | InvalidPhone
    | InvalidEmail
    | NoClientSelected
    | MissingDate
    | DateInPast
    | MissingTitle

  /** `clients.map(c => c.id === updated.id ? updated : c)`, the update `handleUpdateClient` applies. */
  function ReplaceClient(clients: seq<Client>, updated: Client): (r: seq<Client>)
    ensures |r| == |clients|
    ensures forall i :: 0 <= i < |r| ==> r[i].id == clients[i].id
    ensures forall i :: 0 <= i < |r| && clients[i].id != updated.id ==> r[i] == clients[i]
    ensures forall i :: 0 <= i < |r| && clients[i].id == updated.id ==> r[i] == updated
  {
    seq(|clients|, i requires 0 <= i < |clients| => if clients[i].id == updated.id then updated else clients[i])
  }

  /** Replacing twice with the same record is replacing once. */
  lemma ReplaceClientIdempotent(clients: seq<Client>, updated: Client)
    ensures ReplaceClient(ReplaceClient(clients, updated), updated) == ReplaceClient(clients, updated)
  {
  }

  /** After the update, looking the id up finds the new record; every other id finds what it found before. */
  lemma {:induction false} ReplaceClientFind(clients: seq<Client>, updated: Client, id: string)
    ensures FindClient(ReplaceClient(clients, updated), id)
      == if id == updated.id && FindClient(clients, id).Some? then Some(updated) else FindClient(clients, id)
  {
    if clients != [] {
      var r := ReplaceClient(clients, updated);
      ReplaceClientFind(clients[1..], updated, id);
      assert r[1..] == ReplaceClient(clients[1..], updated);
      FindClientHead(clients, id);
      FindClientHead(r, id);
    }
  }

  /** `handleVisitStatusUpdate`: every visit with the id takes the new status; no current status is refused. */
  function UpdateVisitStatus(visits: seq<Visit>, id: string, status: VisitStatus): (r: seq<Visit>)
    ensures |r| == |visits|
    ensures forall i :: 0 <= i < |r| && visits[i].id != id ==> r[i] == visits[i]
    ensures forall i :: 0 <= i < |r| && visits[i].id == id ==> r[i] == visits[i].(status := status)
  {
    seq(|visits|, i requires 0 <= i < |visits| => if visits[i].id == id then visits[i].(status := status) else visits[i])
  }

  /** Only the status changes: ids, order and every other field are kept. */
  lemma UpdateVisitStatusKeepsRest(visits: seq<Visit>, id: string, status: VisitStatus)
    ensures UniqueVisitIds(visits) <==> UniqueVisitIds(UpdateVisitStatus(visits, id, status))
    ensures forall i :: 0 <= i < |visits| ==>
      UpdateVisitStatus(visits, id, status)[i] == visits[i].(status := UpdateVisitStatus(visits, id, status)[i].status)
  {
  }

  /** The last status written wins. */
  lemma UpdateVisitStatusTwice(visits: seq<Visit>, id: string, first: VisitStatus, second: VisitStatus)
    ensures UpdateVisitStatus(UpdateVisitStatus(visits, id, first), id, second) == UpdateVisitStatus(visits, id, second)
  {
  }

  /** Realizada and Cancelada are not final: a completed or cancelled visit can be set back to Agendada. */
  lemma StatusNotTerminal(visits: seq<Visit>, i: int)
    requires 0 <= i < |visits| && visits[i].status != Scheduled
    ensures UpdateVisitStatus(visits, visits[i].id, Scheduled)[i].status == Scheduled
  {
  }

  /** Cancelling a visit silences it: a tick over the updated list raises no alert for its id. */
  lemma CancelledVisitDoesNotAlert(visits: seq<Visit>, clients: seq<Client>, alerted: set<string>, now: int, id: string)
    ensures var r := Monitor.Tick(UpdateVisitStatus(visits, id, Cancelled), clients, alerted, now);
      forall i :: 0 <= i < |r.alerts| ==> r.alerts[i].visitId != id
  {
    var vs := UpdateVisitStatus(visits, id, Cancelled);
    var r := Monitor.Tick(vs, clients, alerted, now);
    Monitor.TickSound(vs, clients, alerted, now);
    forall i | 0 <= i < |r.alerts| ensures r.alerts[i].visitId != id {
      assert Monitor.RaisedBySome(r.alerts[i], vs, clients, alerted, now);
      var k :| 0 <= k < |vs| && Monitor.RaisedBy(r.alerts[i], vs[k], clients, alerted, now);
    }
  }

  /** `handleToggleTask`: every task with the id has `completed` flipped. */
  function ToggleTask(tasks: seq<Task>, id: string): (r: seq<Task>)
    ensures |r| == |tasks|
    ensures forall i :: 0 <= i < |r| && tasks[i].id != id ==> r[i] == tasks[i]
    ensures forall i :: 0 <= i < |r| && tasks[i].id == id ==> r[i] == tasks[i].(completed := !tasks[i].completed)
  {
    seq(|tasks|, i requires 0 <= i < |tasks| => if tasks[i].id == id then tasks[i].(completed := !tasks[i].completed) else tasks[i])
  }

  /** Toggling twice restores the list. */
  lemma ToggleTwice(tasks: seq<Task>, id: string)
    ensures ToggleTask(ToggleTask(tasks, id), id) == tasks
  {
  }

  predicate HasOtherId(id: string, t: Task) {
    t.id != id
  }

  /** `handleDeleteTask`: the tasks whose id differs, in their order. */
  function DeleteTask(tasks: seq<Task>, id: string): (r: seq<Task>)
    ensures forall i :: 0 <= i < |r| ==> r[i].id != id
    ensures forall i :: 0 <= i < |tasks| && tasks[i].id != id ==> tasks[i] in r
    ensures forall i :: 0 <= i < |r| ==> r[i] in tasks
    ensures IsSubsequence(r, tasks)
    ensures (forall i :: 0 <= i < |tasks| ==> tasks[i].id != id) ==> r == tasks
    ensures forall x :: multiset(r)[x] == if x.id != id then multiset(tasks)[x] else 0
  {
    var keep := t => HasOtherId(id, t);
    var r := Filter(tasks, keep);
    assert forall x :: multiset(r)[x] == if x.id != id then multiset(tasks)[x] else 0 by {
      forall x ensures multiset(r)[x] == if x.id != id then multiset(tasks)[x] else 0 {
        FilterMultiplicity(tasks, keep, x);
      }
    }
    assert (forall i :: 0 <= i < |tasks| ==> tasks[i].id != id) ==> r == tasks by {
      if forall i :: 0 <= i < |tasks| ==> tasks[i].id != id {
        FilterKeepsAll(tasks, keep);
      }
    }
    r
  }

  /** Deleting the same id twice deletes nothing more. */
  lemma DeleteTaskIdempotent(tasks: seq<Task>, id: string)
    ensures DeleteTask(DeleteTask(tasks, id), id) == DeleteTask(tasks, id)
  {
  }

  /** `handleAddTask`: the task goes to the end. */
  function AddTask(tasks: seq<Task>, task: Task): (r: seq<Task>)
    ensures |r| == |tasks| + 1 && r[..|tasks|] == tasks && r[|tasks|] == task
  {
    tasks + [task]
  }

  /** The client form: every text field as typed, '' standing for a field left empty. */
  datatype ClientDraft = ClientDraft(
    name: string,
    address: string,
    area: Area,
    category: string,
    classification: ClientClassification,
    contactPerson: string,
    contactRole: string,
    phone: string,
    email: string,
    lastVisit: Option<string>,
    notes: Option<string>)

  const DefaultCategory: string := "Geral"
  const DefaultContactRole: string := "Staff"
  /** Where a new client is pinned until real coordinates are known. */
  const DefaultLat: real := -16.156
  const DefaultLng: real := 33.586

  /** A draft `handleAddClient` accepts: named, with a focal point, and any number or address given is valid. */
  predicate AcceptableClient(d: ClientDraft) {
    d.name != "" && d.contactPerson != ""
    && (d.phone == "" || IsValidMozPhoneNumber(d.phone))
    && (d.email == "" || IsValidEmail(d.email))
  }

  /** The first check of `handleAddClient` that refuses the draft, if any. */
  function ClientRefusal(d: ClientDraft): (r: Option<Refusal>)
    ensures r == None <==> AcceptableClient(d)
  {
    if d.name == "" || d.contactPerson == "" then Some(MissingNameOrContact)
    else if d.phone != "" && !IsValidMozPhoneNumber(d.phone) then Some(InvalidPhone)
    else if d.email != "" && !IsValidEmail(d.email) then Some(InvalidEmail)
    else None
  }

  /** The record `handleAddClient` builds: no visits booked yet, defaults for empty fields, the default pin. */
  function NewClient(d: ClientDraft, id: string): (c: Client)
    ensures c.id == id && c.prospectingCount == 0
    ensures c.name == d.name && c.contactPerson == d.contactPerson && c.phone == d.phone && c.email == d.email
    ensures c.area == d.area && c.classification == d.classification
    ensures c.category != "" && c.contactRole != ""
    ensures d.category != "" ==> c.category == d.category
    ensures d.contactRole != "" ==> c.contactRole == d.contactRole
    ensures d.category == "" ==> c.category == DefaultCategory
    ensures d.contactRole == "" ==> c.contactRole == DefaultContactRole
    ensures c.address == d.address && c.lastVisit == d.lastVisit && c.notes == d.notes
    ensures c.lat == Some(DefaultLat) && c.lng == Some(DefaultLng)
  {
    Client(id, d.name, d.address, d.area,
      if d.category == "" then DefaultCategory else d.category,
      d.classification, d.contactPerson,
      if d.contactRole == "" then DefaultContactRole else d.contactRole,
      d.phone, d.email, 0, d.lastVisit, d.notes, Some(DefaultLat), Some(DefaultLng))
  }

  /** `handleAddClient`: refuse the draft, or append the new client and leave everything else alone. */
  function AddClient(s: Store, d: ClientDraft, id: string): (r: Result<Store, Refusal>)
    ensures r.Failure? <==> ClientRefusal(d).Some?
    ensures r.Failure? ==> r.error == ClientRefusal(d).value
    ensures r.Success? ==> r.value == s.(clients := s.clients + [NewClient(d, id)])
  {
    match ClientRefusal(d)
    case Some(why) => Failure(why)
    case None => Success(s.(clients := s.clients + [NewClient(d, id)]))
  }

  /** A client that was added carries a valid number and a valid address, or none at all. */
  lemma AddedClientContactsValid(s: Store, d: ClientDraft, id: string)
    requires AddClient(s, d, id).Success?
    ensures var c := AddClient(s, d, id).value.clients[|s.clients|];
      c.name != "" && c.contactPerson != "" && c.prospectingCount == 0
      && (c.phone == "" || IsValidMozPhoneNumber(c.phone))
      && (c.email == "" || IsValidEmail(c.email))
  {
  }

  /** The visit form. An empty date field has no date; notes and the service list may be absent. */
  datatype VisitDraft = VisitDraft(
    date: Option<Date>,
    time: Option<TimeOfDay>,
    kind: VisitType,
    notes: Option<string>,
    plannedServices: Option<seq<string>>)

  /** The first check of `handleAddVisit` that refuses the booking, if any. */
  function VisitRefusal(selected: Option<Client>, d: VisitDraft, today: Date): (r: Option<Refusal>)
    ensures r == None <==> selected.Some? && d.date.Some? && !IsDateInPast(d.date.value, today)
  {
    if selected.None? then Some(NoClientSelected)
    else if d.date.None? then Some(MissingDate)
    else if IsDateInPast(d.date.value, today) then Some(DateInPast)
    else None
  }

  /** The visit `handleAddVisit` books: scheduled, for the selected client, nothing found yet. */
  function NewVisit(client: Client, d: VisitDraft, date: Date, id: string): (v: Visit)
    ensures v.id == id && v.clientId == client.id && v.status == Scheduled
    ensures v.date == date && v.time == d.time && v.kind == d.kind
    ensures v.opportunitiesFound == [] && v.notes == d.notes.GetOr("") && v.plannedServices == Some(d.plannedServices.GetOr([]))
  {
    Visit(id, client.id, date, d.time, Scheduled, d.kind, d.notes.GetOr(""), [], Some(d.plannedServices.GetOr([])))
  }

  /** The selected client with one more prospecting visit. */
  function Bumped(c: Client): (r: Client)
    ensures r.id == c.id && r.prospectingCount == c.prospectingCount + 1
    ensures r.(prospectingCount := c.prospectingCount) == c
  {
    c.(prospectingCount := c.prospectingCount + 1)
  }

  /**
   * `handleAddVisit`: refuse, or append the visit and, for a prospecting visit, replace the
   * client carrying the selected id by the selected record with its count raised by one.
   */
  function AddVisit(s: Store, selected: Option<Client>, d: VisitDraft, today: Date, id: string): (r: Result<Store, Refusal>)
    ensures r.Failure? <==> VisitRefusal(selected, d, today).Some?
    ensures r.Failure? ==> r.error == VisitRefusal(selected, d, today).value
    ensures r.Success? ==> r.value.tasks == s.tasks
    ensures r.Success? ==> r.value.visits == s.visits + [NewVisit(selected.value, d, d.date.value, id)]
    ensures r.Success? && d.kind == Prospeccao ==> r.value.clients == ReplaceClient(s.clients, Bumped(selected.value))
    ensures r.Success? && d.kind != Prospeccao ==> r.value.clients == s.clients
  {
    match VisitRefusal(selected, d, today)
    case Some(why) => Failure(why)
    case None =>
      var visit := NewVisit(selected.value, d, d.date.value, id);
      var clients := if visit.kind == Prospeccao then ReplaceClient(s.clients, Bumped(selected.value)) else s.clients;
      Success(Store(clients, s.visits + [visit], s.tasks))
  }

  /**
   * When the selected record is the stored one, a prospecting booking raises that client's
   * count by one and every other client is found exactly as before.
   */
  lemma ProspectingVisitBumpsCount(s: Store, c: Client, d: VisitDraft, today: Date, id: string, other: string)
    requires VisitRefusal(Some(c), d, today).None? && d.kind == Prospeccao
    requires FindClient(s.clients, c.id) == Some(c)
    ensures FindClient(AddVisit(s, Some(c), d, today, id).value.clients, c.id).value.prospectingCount == c.prospectingCount + 1
    ensures other != c.id ==> FindClient(AddVisit(s, Some(c), d, today, id).value.clients, other) == FindClient(s.clients, other)
  {
    ReplaceClientFind(s.clients, Bumped(c), c.id);
    ReplaceClientFind(s.clients, Bumped(c), other);
  }

  /** A booked visit is never on a day before today, and it is the only visit added. */
  lemma BookedVisitNotPast(s: Store, selected: Option<Client>, d: VisitDraft, today: Date, id: string)
    requires AddVisit(s, selected, d, today, id).Success?
    requires ValidDate(d.date.value) && ValidDate(today)
    ensures var visits := AddVisit(s, selected, d, today, id).value.visits;
      |visits| == |s.visits| + 1 && visits[..|s.visits|] == s.visits && !Before(visits[|s.visits|].date, today)
  {
    DateInPastIsCalendarOrder(d.date.value, today);
  }

  /** The task form; `handleAddTaskFromModal` checks the title without trimming it. */
  datatype TaskDraft = TaskDraft(title: string, priority: TaskPriority, date: Date)

  /** `handleAddTaskFromModal`: an empty title is refused, otherwise an open task is appended. */
  function AddTaskFromModal(tasks: seq<Task>, d: TaskDraft, id: string): (r: Result<seq<Task>, Refusal>)
    ensures r.Failure? <==> d.title == ""
    ensures r.Failure? ==> r.error == MissingTitle
    ensures r.Success? ==> r.value == tasks + [Task(id, d.title, d.date, d.priority, false, None)]
  {
    if d.title == "" then Failure(MissingTitle)
    else Success(AddTask(tasks, Task(id, d.title, d.date, d.priority, false, None)))
  }

  /** A title of nothing but whitespace passes the modal's check, unlike the task panel's trimmed check. */
  lemma BlankTitleAccepted(tasks: seq<Task>, d: TaskDraft, id: string)
    requires d.title != "" && forall k :: 0 <= k < |d.title| ==> IsJsWhitespace(d.title[k])
    ensures AddTaskFromModal(tasks, d, id).Success?
    ensures Trim(d.title) == ""
  {
  }

  predicate IsUrgentToday(today: Date, t: Task) {
    t.dueDate == today && t.priority == High && !t.completed
  }

  /** The open high-priority tasks due today, counted in the warning shown at start-up. */
  function UrgentTasks(tasks: seq<Task>, today: Date): (r: seq<Task>)
    ensures forall i :: 0 <= i < |r| ==> r[i].dueDate == today && r[i].priority == High && !r[i].completed
    ensures forall i :: 0 <= i < |tasks| && IsUrgentToday(today, tasks[i]) ==> tasks[i] in r
    ensures IsSubsequence(r, tasks)
    ensures forall x :: multiset(r)[x] == if IsUrgentToday(today, x) then multiset(tasks)[x] else 0
  {
    var urgent := t => IsUrgentToday(today, t);
    var r := Filter(tasks, urgent);
    assert forall x :: multiset(r)[x] == if IsUrgentToday(today, x) then multiset(tasks)[x] else 0 by {
      forall x ensures multiset(r)[x] == if IsUrgentToday(today, x) then multiset(tasks)[x] else 0 {
        FilterMultiplicity(tasks, urgent, x);
      }
    }
    r
  }
}
