/** The per-user transaction store of src/services/transaction-service.ts: a key→list
    map standing for `localStorage`, read back newest first, and the add, update and
    delete operations that read the list, change it and write the whole list back. */
module TransactionService {
  import opened Types
  import opened Ledger

  const KEY_PREFIX: string := "transactions-"

  /** `getStorageKey`: one key per phone number. */
  function StorageKey(phone: string): (key: string)
    ensures |key| == |KEY_PREFIX| + |phone|
    ensures key[..|KEY_PREFIX|] == KEY_PREFIX && key[|KEY_PREFIX|..] == phone
  {
    KEY_PREFIX + phone
  }

  /** Different phone numbers never share a key, so each user's list is kept apart. */
  lemma StorageKeysSeparateUsers(p: string, q: string)
    ensures StorageKey(p) == StorageKey(q) <==> p == q
  {
    if StorageKey(p) == StorageKey(q) {
      assert p == StorageKey(p)[|KEY_PREFIX|..];
    }
  }

  /** What `localStorage` holds under a key, as `getTransactions` sees it: a list it can
      parse, or text it cannot turn into a list (the empty string, text that is not JSON,
      JSON that is not an array). */
  datatype Entry = Saved(records: seq<Transaction>) | Unreadable

  type Storage = map<string, Entry>

  /** The list `getTransactions(phone)` returns for a given state of the storage. */
  function Listed(storage: Storage, phone: string): (r: seq<Transaction>)
    ensures NewestFirst(r)
    ensures StorageKey(phone) in storage && storage[StorageKey(phone)].Saved? ==>
              multiset(r) == multiset(storage[StorageKey(phone)].records)
    ensures StorageKey(phone) !in storage || storage[StorageKey(phone)].Unreadable? ==> r == []
  {
    var key := StorageKey(phone);
    if key in storage && storage[key].Saved? then
      SortNewestFirstSpec(storage[key].records);
      SortNewestFirst(storage[key].records)
    else []
  }

  /** Writing one user's list leaves what every other user reads unchanged. */
  lemma OtherUsersUnaffected(storage: Storage, phone: string, e: Entry, other: string)
    requires other != phone
    ensures Listed(storage[StorageKey(phone) := e], other) == Listed(storage, other)
  {
    StorageKeysSeparateUsers(phone, other);
  }

  /** The list `updateTransaction` writes: `findIndex` by id, then
      `transactions[index] = { ...transactions[index], ...updated }`. Spreading a complete
      record over the stored one keeps none of the stored fields, so the slot receives
      `updated` itself, `date` included. `None` when no id matches. */
  function ReplaceFirstMatch(s: seq<Transaction>, updated: Transaction): (r: Option<seq<Transaction>>)
    ensures r.None? <==> forall j :: 0 <= j < |s| ==> s[j].id != updated.id
    ensures r.Some? ==> |r.value| == |s|
  {
    match FindIndex(s, updated.id)
    case None => None
    case Some(i) => Some(s[i := updated])
  }

  /** Only the first record with the id changes: it becomes `updated`, and every other
      position, later ones with the same id included, keeps its record. */
  lemma ReplaceFirstMatchAt(s: seq<Transaction>, updated: Transaction, i: nat)
    requires i < |s| && s[i].id == updated.id
    requires forall j :: 0 <= j < i ==> s[j].id != updated.id
    ensures ReplaceFirstMatch(s, updated).Some?
    ensures ReplaceFirstMatch(s, updated).value[i] == updated
    ensures forall j :: 0 <= j < |s| && j != i ==> ReplaceFirstMatch(s, updated).value[j] == s[j]
  {
    assert FindIndex(s, updated.id).Some?;
  }

  /** A record at least as new as every record of a newest-first list can go in front of it. */
  lemma PrependNewest(x: Transaction, s: seq<Transaction>)
    requires NewestFirst(s)
    requires forall t :: t in s ==> t.date.millis <= x.date.millis
    ensures NewestFirst([x] + s)
  {
    forall j | 0 <= j < |s|
      ensures x.date.millis >= s[j].date.millis
    {
      assert s[j] in s;
    }
  }

  /** When the added record is at least as new as every stored one, reading the list
      after the add gives the new record first and the old list unchanged behind it. */
  lemma {:induction false} AddedRecordListedFirst(storage: Storage, phone: string, created: Transaction)
    requires forall t :: t in Listed(storage, phone) ==> t.date.millis <= created.date.millis
    ensures var before := Listed(storage, phone);
            Listed(storage[StorageKey(phone) := Saved([created] + before)], phone) == [created] + before
  {
    var before := Listed(storage, phone);
    PrependNewest(created, before);
    SortSorted([created] + before);
  }

  /** Add, then read, then look the new id up: the lookup finds exactly the record `add`
      returned, and the list holds the old records plus that one. */
  lemma AddThenFind(storage: Storage, phone: string, created: Transaction)
    requires forall t :: t in Listed(storage, phone) ==> t.id != created.id
    ensures var before := Listed(storage, phone);
            var after := Listed(storage[StorageKey(phone) := Saved([created] + before)], phone);
            |after| == |before| + 1 &&
            multiset(after) == multiset(before) + multiset{created} &&
            FindIndex(after, created.id).Some? &&
            after[FindIndex(after, created.id).value] == created
  {
    var before := Listed(storage, phone);
    var after := Listed(storage[StorageKey(phone) := Saved([created] + before)], phone);
    assert multiset([created] + before) == multiset{created} + multiset(before);
    FindUnusedId(after, before, created);
  }

  /** A record added under an id no other record has is the one a lookup of that id finds. */
  lemma FindUnusedId(after: seq<Transaction>, before: seq<Transaction>, created: Transaction)
    requires multiset(after) == multiset(before) + multiset{created}
    requires forall t :: t in before ==> t.id != created.id
    ensures FindIndex(after, created.id).Some?
    ensures after[FindIndex(after, created.id).value] == created
  {
    assert created in multiset(after);
    var j :| 0 <= j < |after| && after[j] == created;
    var k := FindIndex(after, created.id);
    assert k.Some? by {
      assert after[j].id == created.id;
    }
    var found := after[k.value];
    assert found in multiset(after);
    assert found.id == created.id;
    assert found !in before;
    assert found !in multiset(before);
  }

  /** After a delete, reading the list shows no record with the deleted id, and every
      other record that was listed before. */
  lemma DeletedIdNotListed(storage: Storage, phone: string, id: string)
    ensures var before := Listed(storage, phone);
            var after := Listed(storage[StorageKey(phone) := Saved(WithoutId(before, id))], phone);
            forall t :: t in after <==> t in before && t.id != id
  {
    var before := Listed(storage, phone);
    var after := Listed(storage[StorageKey(phone) := Saved(WithoutId(before, id))], phone);
    forall t
      ensures t in after <==> t in WithoutId(before, id)
    {
      assert t in after <==> t in multiset(after);
      assert t in WithoutId(before, id) <==> t in multiset(WithoutId(before, id));
    }
  }

  /** Deleting the same id a second time writes exactly what the first delete wrote. */
  lemma DeleteTwiceWritesOnce(storage: Storage, phone: string, id: string)
    ensures var once := storage[StorageKey(phone) := Saved(WithoutId(Listed(storage, phone), id))];
            once[StorageKey(phone) := Saved(WithoutId(Listed(once, phone), id))] == once
  {
    var key := StorageKey(phone);
    var kept := WithoutId(Listed(storage, phone), id);
    var once := storage[key := Saved(kept)];
    FilterKeepsNewestFirst(Listed(storage, phone), OtherThan(id));
    SortSorted(kept);
    assert Listed(once, phone) == kept;
    DeleteTwice(Listed(storage, phone), id);
  }

  /** The service's view of `localStorage`. */
  class TransactionStore {
    var storage: Storage

    constructor (initial: Storage)
      ensures storage == initial
    {
      storage := initial;
    }

    /** `getTransactions`: the user's list newest first, or nothing when the key is
        missing or its text cannot be read as a list. */
    method GetTransactions(phone: string) returns (txs: seq<Transaction>)
      ensures NewestFirst(txs)
      ensures txs == Listed(storage, phone)
    {
      txs := Listed(storage, phone);
    }

    /** `saveTransactions`: the whole list replaces whatever was stored under the user's key. */
    method SaveTransactions(phone: string, txs: seq<Transaction>)
      modifies this
      ensures storage == old(storage)[StorageKey(phone) := Saved(txs)]
    {
      storage := storage[StorageKey(phone) := Saved(txs)];
    }

    /** `addTransaction`: the new record, with the fresh id and the current time passed
        in, goes in front of the list as it was read. */
    method AddTransaction(phone: string, data: Draft, freshId: string, now: Date)
      returns (created: Transaction)
      modifies this
      ensures created == Transaction(freshId, data.kind, data.amount, data.description, now)
      ensures storage == old(storage)[StorageKey(phone) := Saved([created] + Listed(old(storage), phone))]
      ensures forall other :: other != phone ==> Listed(storage, other) == Listed(old(storage), other)
    {
      var txs := GetTransactions(phone);
      created := Transaction(freshId, data.kind, data.amount, data.description, now);
      SaveTransactions(phone, [created] + txs);
      forall other | other != phone
        ensures Listed(storage, other) == Listed(old(storage), other)
      {
        OtherUsersUnaffected(old(storage), phone, Saved([created] + txs), other);
      }
    }

    /** `updateTransaction`: `None` and no write when no record has the id; otherwise
        the first record with the id is replaced and the replacement returned. */
    method UpdateTransaction(phone: string, updated: Transaction)
      returns (result: Option<Transaction>)
      modifies this
      ensures ReplaceFirstMatch(Listed(old(storage), phone), updated).None? ==>
                result == None && storage == old(storage)
      ensures ReplaceFirstMatch(Listed(old(storage), phone), updated).Some? ==>
                result == Some(updated) &&
                storage == old(storage)[StorageKey(phone) :=
                             Saved(ReplaceFirstMatch(Listed(old(storage), phone), updated).value)]
    {
      var txs := GetTransactions(phone);
      var index := FindIndex(txs, updated.id);
      if index.Some? {
        txs := txs[index.value := updated];
        SaveTransactions(phone, txs);
        result := Some(txs[index.value]);
      } else {
        result := None;
      }
    }

    /** `deleteTransaction`: writes back the list without the records that have the id. */
    method DeleteTransaction(phone: string, id: string)
      modifies this
      ensures storage == old(storage)[StorageKey(phone) := Saved(WithoutId(Listed(old(storage), phone), id))]
    {
      var txs := GetTransactions(phone);
      txs := WithoutId(txs, id);
      SaveTransactions(phone, txs);
    }
  }
}
