/**
 * The records and closed enumerations of the field-sales app: clients, visits with the
 * opportunities found on them, and tasks. String enums keep their Portuguese values as labels.
 */
module Types {
  import opened Basics
  import opened Calendar

  datatype Area = Cidade | Margem | Moatize | EmpresaMineira

  datatype VisitStatus = Scheduled | Completed | Cancelled

  datatype ClientClassification = Cold | Warm | Hot | Contracted

  datatype TaskPriority = Low | Medium | High

  /** The three kinds of visit a `Visit.type` can hold. */
  datatype VisitType = Prospeccao | Acompanhamento | Tecnica

  /** The enumerations in `Object.values` order. */
  const Areas: seq<Area> := [Cidade, Margem, Moatize, EmpresaMineira]
  const Classifications: seq<ClientClassification> := [Cold, Warm, Hot, Contracted]

  function AreaLabel(a: Area): string {
    match a
    case Cidade => "Cidade"
    case Margem => "Margem"
    case Moatize => "Moatize"
    case EmpresaMineira => "Empresa Mineira"
  }

  function StatusLabel(s: VisitStatus): string {
    match s
    case Scheduled => "Agendada"
    case Completed => "Realizada"
    case Cancelled => "Cancelada"
  }

  function VisitTypeLabel(t: VisitType): string {
    match t
    case Prospeccao => "Prospecção"
    case Acompanhamento => "Acompanhamento"
    case Tecnica => "Técnica"
  }

  /** Reads a `Visit.type` string; nothing outside the three labels is a visit type. */
  function ParseVisitType(s: string): (r: Option<VisitType>)
    ensures r.Some? ==> VisitTypeLabel(r.value) == s
    ensures forall t: VisitType :: VisitTypeLabel(t) == s ==> r == Some(t)
  {
    if s == "Prospecção" then Some(Prospeccao)
    else if s == "Acompanhamento" then Some(Acompanhamento)
    else if s == "Técnica" then Some(Tecnica)
    else None
  }

  /** A status compared by its label (`v.status === 'Realizada'`) is the status itself. */
  lemma StatusLabelInjective(a: VisitStatus, b: VisitStatus)
    ensures StatusLabel(a) == StatusLabel(b) <==> a == b
  {
  }

  datatype Opportunity = Opportunity(id: string, description: string, value: Option<real>, serviceType: string)

  datatype Visit = Visit(
    id: string,
    clientId: string,
    date: Date,
    time: Option<TimeOfDay>,   // None: an empty or unparseable 'HH:mm'
    status: VisitStatus,
    kind: VisitType,
    notes: string,
    opportunitiesFound: seq<Opportunity>,
    plannedServices: Option<seq<string>>)

  datatype Client = Client(
    id: string,
    name: string,
    address: string,
    area: Area,
    category: string,
    classification: ClientClassification,
    contactPerson: string,
    contactRole: string,
    phone: string,
    email: string,
    prospectingCount: nat,   // visits booked; 3 is only the goal shown, not a cap
    lastVisit: Option<string>,
    notes: Option<string>,
    lat: Option<real>,
    lng: Option<real>)

  datatype Task = Task(
    id: string,
    title: string,
    dueDate: Date,
    priority: TaskPriority,
    completed: bool,
    relatedClientId: Option<string>)

  /** A planned-service list as consumers read it: absent means empty. */
  function PlannedServices(v: Visit): seq<string> {
    v.plannedServices.GetOr([])
  }

  /** An opportunity value as sums read it: absent means 0. */
  function ValueOrZero(o: Opportunity): real {
    o.value.GetOr(0.0)
  }

  /** Position `i` holds the first client whose id is `id`. */
  ghost predicate FirstWithId(clients: seq<Client>, i: int, id: string) {
    0 <= i < |clients| && clients[i].id == id && forall j :: 0 <= j < i ==> clients[j].id != id
  }

  /** `clients.find(c => c.id === id)`: the first client with that id. */
  function FindClient(clients: seq<Client>, id: string): (r: Option<Client>)
    ensures r.None? <==> forall i :: 0 <= i < |clients| ==> clients[i].id != id
    ensures r.Some? ==> exists i :: FirstWithId(clients, i, id) && clients[i] == r.value
  {
    if clients == [] then None
    else if clients[0].id == id then
      assert FirstWithId(clients, 0, id);
      Some(clients[0])
    else
      var r := FindClient(clients[1..], id);
      assert r.Some? ==> exists i :: FirstWithId(clients, i, id) && clients[i] == r.value by {
        if r.Some? {
          var i :| FirstWithId(clients[1..], i, id) && clients[1..][i] == r.value;
          assert FirstWithId(clients, i + 1, id);
        }
      }
      r
  }

  /** A lookup checks the first client, then the rest. */
  lemma FindClientHead(clients: seq<Client>, id: string)
    requires clients != []
    ensures FindClient(clients, id) == if clients[0].id == id then Some(clients[0]) else FindClient(clients[1..], id)
  {
  }

  /** No two clients share an id. */
  ghost predicate UniqueClientIds(clients: seq<Client>) {
    forall i, j :: 0 <= i < j < |clients| ==> clients[i].id != clients[j].id
  }

  /** No two visits share an id. */
  ghost predicate UniqueVisitIds(visits: seq<Visit>) {
    forall i, j :: 0 <= i < j < |visits| ==> visits[i].id != visits[j].id
  }
}
