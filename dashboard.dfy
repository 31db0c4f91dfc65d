/** The dashboard page of src/app/page.tsx: its own copy of the transaction list kept
    in component state, the running balance, the add/update and delete handlers, the
    dialog state that decides whether a submit is an add or an update, and the
    "recent" view of the first five records. */
module Dashboard {
  import opened Types
  import opened Ledger

  // ---------------------------------------------------------------------------
  // Balance
  // ---------------------------------------------------------------------------

  /** The `balance` memo: `reduce` from 0, adding cash in and subtracting cash out. The
      balance is everything that came in minus everything that went out. */
  function Balance(s: seq<Transaction>): (r: int)
    ensures r == Total(s, In) - Total(s, Out)
  {
    if s == [] then 0
    else
      var acc, curr := Balance(s[..|s| - 1]), s[|s| - 1];
      if curr.kind == In then acc + curr.amount else acc - curr.amount
  }

  /** The effect of one record on the balance: plus its amount for cash in, minus for cash out. */
  function Signed(t: Transaction): int
  {
    if t.kind == In then t.amount else -t.amount
  }

  /** Putting a record in front of the list, as an add does, moves the balance by that
      record's signed amount. */
  lemma BalanceOfPrepended(t: Transaction, s: seq<Transaction>)
    ensures Balance([t] + s) == Balance(s) + Signed(t)
  {
    TotalConcat([t], s, In);
    TotalConcat([t], s, Out);
    assert [t][..0] == [];
  }

  /** The balance does not depend on the order of the list. */
  lemma BalanceIgnoresOrder(s: seq<Transaction>, t: seq<Transaction>)
    requires multiset(s) == multiset(t)
    ensures Balance(s) == Balance(t)
  {
    TotalIgnoresOrder(s, t, In);
    TotalIgnoresOrder(s, t, Out);
  }

  // ---------------------------------------------------------------------------
  // Submit and delete
  // ---------------------------------------------------------------------------

  /** What the transaction dialog submits: the editable fields and, when it was
      opened on an existing record, that record's id. Its optional `date` is
      overwritten on both paths of the handler, so it is left out. */
  datatype Submission = Submission(fields: Draft, id: Option<string>)

  /** `editingTransaction && transactionData.id`: an object is always truthy, a string
      only when it is not empty. */
  predicate IsUpdate(editing: Option<Transaction>, data: Submission): (r: bool)
    ensures editing.None? ==> !r
    ensures data.id == None || data.id == Some("") ==> !r
    ensures editing.Some? && data.id.Some? && |data.id.value| > 0 ==> r
  {
    editing.Some? && data.id.Some? && data.id.value != ""
  }

  /** The update branch: `transactions.map(tx => tx.id === id ? { ...tx, ...data, date: tx.date } : tx)`.
      Every record with the id takes the submitted fields and keeps its own id and date. */
  function EditMatching(s: seq<Transaction>, id: string, d: Draft): (r: seq<Transaction>)
    ensures |r| == |s|
    ensures forall i :: 0 <= i < |s| ==> r[i].id == s[i].id && r[i].date == s[i].date
    ensures forall i :: 0 <= i < |s| && s[i].id != id ==> r[i] == s[i]
    ensures forall i :: 0 <= i < |s| && s[i].id == id ==>
              r[i].kind == d.kind && r[i].amount == d.amount && r[i].description == d.description
  {
    if s == [] then []
    else
      var tx := s[0];
      [if tx.id == id then Transaction(tx.id, d.kind, d.amount, d.description, tx.date) else tx]
        + EditMatching(s[1..], id, d)
  }

  /** Submitting the same edit twice gives what submitting it once gave. */
  lemma EditTwice(s: seq<Transaction>, id: string, d: Draft)
    ensures EditMatching(EditMatching(s, id, d), id, d) == EditMatching(s, id, d)
  {
    var once := EditMatching(s, id, d);
    var twice := EditMatching(once, id, d);
    forall i | 0 <= i < |s|
      ensures twice[i] == once[i]
    {
      if s[i].id == id {
        assert once[i].id == id;
      }
    }
  }

  /** Deleting an id after editing it leaves what deleting it at once leaves: the edit
      touches no record other than those the delete removes. */
  lemma {:induction false} DeleteAfterEdit(s: seq<Transaction>, id: string, d: Draft)
    ensures WithoutId(EditMatching(s, id, d), id) == WithoutId(s, id)
  {
    if s != [] {
      DeleteAfterEdit(s[1..], id, d);
      var e := EditMatching(s, id, d);
      assert e[0] == (if s[0].id == id then e[0] else s[0]);
      assert e[1..] == EditMatching(s[1..], id, d);
    }
  }

  /** The "recent transactions" table: `transactions.slice(0, 5)`. */
  function Recent(s: seq<Transaction>): (r: seq<Transaction>)
    ensures r <= s
    ensures |s| >= 5 ==> |r| == 5
    ensures |s| < 5 ==> r == s
  {
    if |s| <= 5 then s else s[..5]
  }

  /** The state of the dashboard component. */
  class DashboardPage {
    var transactions: seq<Transaction>
    var dialogOpen: bool
    var dialogMode: Kind
    var editingTransaction: Option<Transaction>

    /** The component's first render, with the list it read at start-up. */
    constructor (saved: seq<Transaction>)
      ensures transactions == saved
      ensures !dialogOpen && dialogMode == In && editingTransaction == None
    {
      transactions := saved;
      dialogOpen := false;
      dialogMode := In;
      editingTransaction := None;
    }

    /** `handleAddOrUpdateTransaction`: an update of every record with the submitted id
        when a record is being edited and the submission carries a non-empty id, else an
        add in front of the list with the fresh id and time passed in. Either way the
        dialog no longer edits anything. */
    method HandleAddOrUpdateTransaction(data: Submission, freshId: string, now: Date)
      modifies this
      ensures IsUpdate(old(editingTransaction), data) ==>
                transactions == EditMatching(old(transactions), data.id.value, data.fields)
      ensures !IsUpdate(old(editingTransaction), data) ==>
                transactions == [Transaction(freshId, data.fields.kind, data.fields.amount,
                                             data.fields.description, now)] + old(transactions)
      ensures !IsUpdate(old(editingTransaction), data) ==>
                Balance(transactions) == Balance(old(transactions)) + Signed(transactions[0])
      ensures editingTransaction == None
      ensures dialogOpen == old(dialogOpen) && dialogMode == old(dialogMode)
    {
      if editingTransaction.Some? && data.id.Some? && data.id.value != "" {
        transactions := EditMatching(transactions, data.id.value, data.fields);
      } else {
        var created := Transaction(freshId, data.fields.kind, data.fields.amount,
                                   data.fields.description, now);
        BalanceOfPrepended(created, transactions);
        transactions := [created] + transactions;
      }
      editingTransaction := None;
    }

    /** `handleDeleteTransaction`: every record with the id goes, the others stay in order. */
    method HandleDeleteTransaction(id: string)
      modifies this
      ensures transactions == WithoutId(old(transactions), id)
      ensures dialogOpen == old(dialogOpen) && dialogMode == old(dialogMode)
      ensures editingTransaction == old(editingTransaction)
    {
      transactions := WithoutId(transactions, id);
    }

    /** `openDialog(mode, transaction)`: sets all three dialog fields. */
    method OpenDialog(mode: Kind, transaction: Option<Transaction>)
      modifies this
      ensures dialogMode == mode && editingTransaction == transaction && dialogOpen
      ensures transactions == old(transactions)
    {
      dialogMode := mode;
      editingTransaction := transaction;
      dialogOpen := true;
    }

    /** `closeDialog`: closes the dialog and forgets the record being edited; the mode stays. */
    method CloseDialog()
      modifies this
      ensures !dialogOpen && editingTransaction == None
      ensures dialogMode == old(dialogMode) && transactions == old(transactions)
    {
      dialogOpen := false;
      editingTransaction := None;
    }
  }
}
