/** How the service's update (src/services/transaction-service.ts) and the dashboard's
    update (src/app/page.tsx) relate: the service replaces the first record with the id
    by the supplied record, date included; the dashboard rewrites every record with the
    id and keeps each one's date. */
module Consistency {
  import opened Types
  import opened Ledger
  import TransactionService
  import Dashboard

  function FieldsOf(t: Transaction): Draft
  {
    Draft(t.kind, t.amount, t.description)
  }

  /** When exactly one record has the id and the supplied record keeps its date, both
      updates write the same list. */
  lemma UpdatesAgreeOnUniqueRecord(s: seq<Transaction>, u: Transaction, i: nat)
    requires i < |s| && s[i].id == u.id
    requires forall j :: 0 <= j < |s| && j != i ==> s[j].id != u.id
    requires u.date == s[i].date
    ensures TransactionService.ReplaceFirstMatch(s, u) == Some(Dashboard.EditMatching(s, u.id, FieldsOf(u)))
  {
    TransactionService.ReplaceFirstMatchAt(s, u, i);
    var service := TransactionService.ReplaceFirstMatch(s, u).value;
    var page := Dashboard.EditMatching(s, u.id, FieldsOf(u));
    assert page[i] == u;
    assert service == page;
  }

  /** At the first record with the id, the service stores the supplied record, date
      included, and the dashboard takes the supplied type, amount and description but
      keeps the stored date. */
  lemma FirstMatchDates(s: seq<Transaction>, u: Transaction, i: nat)
    requires i < |s| && s[i].id == u.id
    requires forall k :: 0 <= k < i ==> s[k].id != u.id
    ensures TransactionService.ReplaceFirstMatch(s, u).Some?
    ensures TransactionService.ReplaceFirstMatch(s, u).value[i] == u
    ensures TransactionService.ReplaceFirstMatch(s, u).value[i].date == u.date
    ensures Dashboard.EditMatching(s, u.id, FieldsOf(u))[i] ==
              Transaction(u.id, u.kind, u.amount, u.description, s[i].date)
    ensures Dashboard.EditMatching(s, u.id, FieldsOf(u))[i].date == s[i].date
  {
    TransactionService.ReplaceFirstMatchAt(s, u, i);
  }

  /** At any later record with the same id, the service leaves the record alone and the
      dashboard rewrites it. */
  lemma LaterMatchesDiffer(s: seq<Transaction>, u: Transaction, i: nat, j: nat)
    requires i < j < |s| && s[i].id == u.id && s[j].id == u.id
    requires forall k :: 0 <= k < i ==> s[k].id != u.id
    ensures TransactionService.ReplaceFirstMatch(s, u).Some?
    ensures TransactionService.ReplaceFirstMatch(s, u).value[j] == s[j]
    ensures Dashboard.EditMatching(s, u.id, FieldsOf(u))[j] ==
              Transaction(s[j].id, u.kind, u.amount, u.description, s[j].date)
  {
    TransactionService.ReplaceFirstMatchAt(s, u, i);
  }

  /** When no record has the id, the service reports `None` and writes nothing, and the
      dashboard's update leaves the list as it was. */
  lemma NoMatch(s: seq<Transaction>, u: Transaction)
    requires forall k :: 0 <= k < |s| ==> s[k].id != u.id
    ensures TransactionService.ReplaceFirstMatch(s, u).None?
    ensures Dashboard.EditMatching(s, u.id, FieldsOf(u)) == s
  {
  }
}
