/**
 * The client list: the area and search filters, the prospecting progress bar, and the notes
 * editor that writes back through the client update handler.
 */
module ClientList {
  import opened Basics
  import opened Text
  import opened Types
  import App

  /** The area selector: 'All' or one area. */
  datatype AreaFilter = AllAreas | OnlyArea(area: Area)

  predicate MatchesArea(f: AreaFilter, c: Client) {
    f.AllAreas? || c.area == f.area
  }

  /** The search term occurs, ignoring case, in the company name or in the focal point's name. */
  predicate MatchesSearch(term: string, c: Client) {
    Contains(AsciiLower(c.name), AsciiLower(term)) || Contains(AsciiLower(c.contactPerson), AsciiLower(term))
  }

  predicate Listed(f: AreaFilter, term: string, c: Client) {
    MatchesArea(f, c) && MatchesSearch(term, c)
  }

  /** `filteredClients`: the clients passing both filters, in list order. */
  function FilteredClients(clients: seq<Client>, f: AreaFilter, term: string): (r: seq<Client>)
    ensures forall i :: 0 <= i < |r| ==> r[i] in clients && MatchesArea(f, r[i]) && MatchesSearch(term, r[i])
    ensures forall i :: 0 <= i < |clients| && MatchesArea(f, clients[i]) && MatchesSearch(term, clients[i]) ==> clients[i] in r
    ensures IsSubsequence(r, clients)
  {
    Filter(clients, c => Listed(f, term, c))
  }

  /** With 'All' and an empty search every client is listed, in order. */
  lemma EveryoneListedByDefault(clients: seq<Client>)
    ensures FilteredClients(clients, AllAreas, "") == clients
  {
    forall i | 0 <= i < |clients| ensures Listed(AllAreas, "", clients[i]) {
      ContainsEmpty(AsciiLower(clients[i].name));
    }
    FilterKeepsAll(clients, c => Listed(AllAreas, "", c));
  }

  lemma LowerCharIdempotent(c: char)
    ensures LowerChar(LowerChar(c)) == LowerChar(c)
  {
  }

  /** Lower-casing the search term first changes nothing: the search ignores case. */
  lemma SearchIgnoresCase(clients: seq<Client>, f: AreaFilter, term: string)
    ensures FilteredClients(clients, f, AsciiLower(term)) == FilteredClients(clients, f, term)
  {
    assert AsciiLower(AsciiLower(term)) == AsciiLower(term) by {
      forall i | 0 <= i < |term| ensures AsciiLower(AsciiLower(term))[i] == AsciiLower(term)[i] {
        LowerCharIdempotent(term[i]);
      }
    }
    FilterCongruent(clients, c => Listed(f, AsciiLower(term), c), c => Listed(f, term, c));
  }

  /** Choosing one area lists a part of what 'All' lists with the same search. */
  lemma AreaNarrowsList(clients: seq<Client>, a: Area, term: string, c: Client)
    requires c in FilteredClients(clients, OnlyArea(a), term)
    ensures c in FilteredClients(clients, AllAreas, term) && c.area == a
  {
    var i :| 0 <= i < |FilteredClients(clients, OnlyArea(a), term)| && FilteredClients(clients, OnlyArea(a), term)[i] == c;
    var k :| 0 <= k < |clients| && clients[k] == c;
  }

  /** The bar width in percent: `Math.min((count / 3) * 100, 100)`. */
  function ProgressWidth(count: int): (r: real)
    ensures r <= 100.0
    ensures r == 100.0 <==> count >= 3
    ensures count >= 0 ==> r >= 0.0
  {
    var raw := (count as real / 3.0) * 100.0;
    if raw < 100.0 then raw else 100.0
  }

  /** The bar grows with the count until it is full. */
  lemma ProgressMonotone(a: int, b: int)
    requires a <= b
    ensures ProgressWidth(a) <= ProgressWidth(b)
  {
  }

  const ProgressPrefix: string := "Prospecção ("

  /** The label above the bar: the raw count out of 3, never capped. */
  function ProgressLabel(count: nat): (r: string)
    ensures |r| > |ProgressPrefix| + 3 && r[..|ProgressPrefix|] == ProgressPrefix && r[|r| - 3..] == "/3)"
    ensures AllDigits(r[|ProgressPrefix|..|r| - 3]) && DecimalValue(r[|ProgressPrefix|..|r| - 3]) == count
  {
    var digits := NatToString(count);
    var r := ProgressPrefix + digits + "/3)";
    assert r[..|ProgressPrefix|] == ProgressPrefix;
    assert r[|r| - 3..] == "/3)";
    assert r[|ProgressPrefix|..|r| - 3] == digits;
    r
  }

  /** Beyond the goal the bar stays full while the label keeps counting. */
  lemma BarCapsLabelDoesNot(count: nat)
    requires count > 3
    ensures ProgressWidth(count) == ProgressWidth(3)
    ensures ProgressLabel(count) != ProgressLabel(3)
  {
  }

  /** The notes box edits the selected client's copy. */
  function EditNotes(c: Client, text: string): (r: Client)
    ensures r.notes == Some(text) && r.(notes := c.notes) == c
  {
    c.(notes := Some(text))
  }

  /** `handleSaveNotes`: with a client selected, send its copy to the update handler; otherwise nothing. */
  function SaveNotes(clients: seq<Client>, selected: Option<Client>): (r: seq<Client>)
    ensures selected.None? ==> r == clients
    ensures selected.Some? ==> r == App.ReplaceClient(clients, selected.value)
  {
    match selected
    case Some(c) => App.ReplaceClient(clients, c)
    case None => clients
  }

  /** Editing the stored record's notes and leaving the box changes that client's notes and nothing else. */
  lemma SavingNotesTouchesOnlyNotes(clients: seq<Client>, i: int, text: string)
    requires 0 <= i < |clients| && UniqueClientIds(clients)
    ensures |SaveNotes(clients, Some(EditNotes(clients[i], text)))| == |clients|
    ensures forall j :: 0 <= j < |clients| ==>
      SaveNotes(clients, Some(EditNotes(clients[i], text)))[j] == if j == i then clients[j].(notes := Some(text)) else clients[j]
  {
  }
}
