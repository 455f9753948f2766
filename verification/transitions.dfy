/**
  The writing operations of the content store (`DB.make_admin`,
  `DB.revoke_admin`, the insert branch of `DB.create_or_check_batch`,
  `DB.close_batch`, `DB.add_item`) as transitions of the tables. Each returns
  what the Python method returns and the tables after its statement; a
  statement that fails an integrity constraint leaves the tables as they were.
*/
module Transitions {
  import opened Common
  import opened Schema
  import opened Queries

  /** What an operation returns, and the tables afterwards. */
  datatype Step<T> = Step(result: T, after: Tables)

  /** A batch never disappears, keeps its owner, and once closed stays closed. */
  predicate BatchesKept(d: Tables, e: Tables) {
    forall b :: b in d.batches ==>
      && b in e.batches
      && e.batches[b].adminId == d.batches[b].adminId
      && (d.batches[b].closed.Some? ==> e.batches[b].closed.Some?)
  }

  // ---------------------------------------------------------------- admins

  /** The admin rows other than the one for (user_type, user_id), in rowid order. */
  function DropUser(rows: seq<AdminRow>, userType: string, userId: string): (r: seq<AdminRow>)
    ensures forall a :: a in r <==> a in rows && !IsUser(a, userType, userId)
  {
    if rows == [] then []
    else
      var rest := DropUser(rows[1..], userType, userId);
      assert forall a :: a in rows <==> a == rows[0] || a in rows[1..];
      if IsUser(rows[0], userType, userId) then rest else [rows[0]] + rest
  }

  /** Some batch row names `id` as its admin. */
  predicate Referenced(batches: map<string, BatchRow>, id: int) {
    exists b :: b in batches && batches[b].adminId == id
  }

  /**
    REPLACE must delete the existing row for (user_type, user_id); with foreign
    keys on, that fails when a batch still refers to the row's id.
  */
  predicate ReplaceBlocked(d: Tables, userType: string, userId: string) {
    exists a :: a in d.admins && IsUser(a, userType, userId) && Referenced(d.batches, a.id)
  }

  /**
    `INSERT OR REPLACE INTO admins (user_type, user_id, active) VALUES (t, u, active)`:
    `make_admin` with `active == true`, `revoke_admin` with `active == false`.
    The conflicting row is deleted and a new row with a fresh AUTOINCREMENT id is
    appended; an IntegrityError (from the foreign key of `batches`) returns False.
  */
  function UpsertAdmin(d: Tables, userType: string, userId: string, active: bool): (r: Step<bool>)
    ensures r.result <==> !ReplaceBlocked(d, userType, userId)
    ensures !r.result ==> r.after == d
    ensures r.result ==>
      && AdminRow(d.adminSeq + 1, userType, userId, active) in r.after.admins
      && (forall a :: a in r.after.admins && IsUser(a, userType, userId) ==>
            a == AdminRow(d.adminSeq + 1, userType, userId, active))
      && (forall a :: a in d.admins && !IsUser(a, userType, userId) ==> a in r.after.admins)
      && (forall a :: a in r.after.admins && !IsUser(a, userType, userId) ==> a in d.admins)
      && r.after.adminSeq == d.adminSeq + 1
      && r.after.templates == d.templates && r.after.batches == d.batches
      && r.after.items == d.items && r.after.itemSeq == d.itemSeq
  {
    if ReplaceBlocked(d, userType, userId) then Step(false, d)
    else
      var row := AdminRow(d.adminSeq + 1, userType, userId, active);
      Step(true, d.(admins := DropUser(d.admins, userType, userId) + [row], adminSeq := d.adminSeq + 1))
  }

  lemma {:induction false} FindActiveDropOther(rows: seq<AdminRow>, t: string, u: string, t': string, u': string)
    requires !(t == t' && u == u')
    ensures FindActive(DropUser(rows, t, u), t', u') == FindActive(rows, t', u')
  {
    if rows != [] {
      FindActiveDropOther(rows[1..], t, u, t', u');
      if !IsUser(rows[0], t, u) {
        assert ([rows[0]] + DropUser(rows[1..], t, u))[1..] == DropUser(rows[1..], t, u);
      }
    }
  }

  /** After a successful upsert, `is_admin(t, u)` is the new row's id for a grant and None for a revoke. */
  lemma UpsertSetsStatus(d: Tables, userType: string, userId: string, active: bool)
    requires UpsertAdmin(d, userType, userId, active).result
    ensures IsAdmin(UpsertAdmin(d, userType, userId, active).after, userType, userId) ==
      if active then Some(d.adminSeq + 1) else None
  {
  }

  /** An upsert for (t, u) does not change `is_admin` for any other user. */
  lemma UpsertKeepsOthers(d: Tables, userType: string, userId: string, active: bool, t': string, u': string)
    requires !(t' == userType && u' == userId)
    ensures IsAdmin(UpsertAdmin(d, userType, userId, active).after, t', u') == IsAdmin(d, t', u')
  {
    if UpsertAdmin(d, userType, userId, active).result {
      var rest := DropUser(d.admins, userType, userId);
      var row := AdminRow(d.adminSeq + 1, userType, userId, active);
      FindActiveAppend(rest, [row], t', u');
      FindActiveDropOther(d.admins, userType, userId, t', u');
    }
  }

  lemma {:induction false} UniqueDrop(rows: seq<AdminRow>, t: string, u: string)
    requires Unique(rows)
    ensures Unique(DropUser(rows, t, u))
  {
    if rows != [] {
      UniqueDrop(rows[1..], t, u);
      var rest := DropUser(rows[1..], t, u);
      if !IsUser(rows[0], t, u) {
        assert ([rows[0]] + rest)[1..] == rest;
      }
    }
  }

  lemma {:induction false} UniqueAppend(rows: seq<AdminRow>, x: AdminRow)
    requires Unique(rows)
    requires forall b :: b in rows ==> !Clash(b, x)
    ensures Unique(rows + [x])
  {
    if rows != [] {
      assert (rows + [x])[1..] == rows[1..] + [x];
      UniqueAppend(rows[1..], x);
      assert forall b :: b in (rows + [x])[1..] ==> b in rows[1..] || b == x;
    } else {
      assert rows + [x] == [x];
      assert [x][1..] == [];
    }
  }

  /** Upserts keep every schema constraint, in particular at most one admins row per (t, u). */
  lemma UpsertPreservesIntegrity(d: Tables, userType: string, userId: string, active: bool)
    requires Integrity(d)
    ensures Integrity(UpsertAdmin(d, userType, userId, active).after)
    ensures BatchesKept(d, UpsertAdmin(d, userType, userId, active).after)
  {
    if UpsertAdmin(d, userType, userId, active).result {
      var rest := DropUser(d.admins, userType, userId);
      var row := AdminRow(d.adminSeq + 1, userType, userId, active);
      UniqueDrop(d.admins, userType, userId);
      UniqueAppend(rest, row);
      var e := UpsertAdmin(d, userType, userId, active).after;
      forall b | b in e.batches ensures HasAdminId(e.admins, e.batches[b].adminId) {
        var a :| a in d.admins && a.id == d.batches[b].adminId;
        assert Referenced(d.batches, a.id);
        assert a in e.admins;
      }
    }
  }

  /**
    The as-written upsert cannot revoke an admin who owns a batch: the REPLACE
    trips the foreign key, `revoke_admin` returns False and `is_admin` still
    reports the admin.
  */
  lemma RevokeBlockedByBatch(d: Tables, a: AdminRow, batch: string)
    requires Integrity(d)
    requires a in d.admins && a.active
    requires batch in d.batches && d.batches[batch].adminId == a.id
    ensures UpsertAdmin(d, a.userType, a.userId, false) == Step(false, d)
    ensures IsAdmin(d, a.userType, a.userId) == Some(a.id)
  {
    assert Referenced(d.batches, a.id);
    IsAdminOfRow(d.admins, a);
  }

  // --------------------------------------------------------------- batches

  /**
    The insert branch of `DB.create_or_check_batch(admin)`: `INSERT INTO batches
    (id, admin_id)` with the generated `id`, `created = now` and `closed` NULL.
    A duplicate id or an unknown admin is an IntegrityError and returns None.
  */
  function CreateBatch(d: Tables, admin: int, id: string, now: Timestamp): (r: Step<Option<string>>)
    ensures r.result.Some? <==> id !in d.batches && HasAdminId(d.admins, admin)
    ensures r.result.None? ==> r.after == d
    ensures r.result.Some? ==>
      && r.result.value == id
      && r.after.batches.Keys == d.batches.Keys + {id}
      && |r.after.batches| == |d.batches| + 1
      && r.after.batches[id] == BatchRow(admin, now, None)
      && (forall b :: b in d.batches ==> r.after.batches[b] == d.batches[b])
      && r.after.admins == d.admins && r.after.adminSeq == d.adminSeq
      && r.after.templates == d.templates && r.after.items == d.items && r.after.itemSeq == d.itemSeq
    ensures BatchesKept(d, r.after)
  {
    if id in d.batches || !HasAdminId(d.admins, admin) then Step(None, d)
    else Step(Some(id), d.(batches := d.batches[id := BatchRow(admin, now, None)]))
  }

  /** A freshly created batch passes the check branch for its admin. */
  lemma CreatedBatchIsOpen(d: Tables, admin: int, id: string, now: Timestamp)
    requires CreateBatch(d, admin, id, now).result.Some?
    ensures CheckBatch(CreateBatch(d, admin, id, now).after, admin, id) == Ok(id)
    ensures forall other :: other != admin ==> CheckBatch(CreateBatch(d, admin, id, now).after, other, id).Err?
  {
  }

  lemma CreatePreservesIntegrity(d: Tables, admin: int, id: string, now: Timestamp)
    requires Integrity(d)
    ensures Integrity(CreateBatch(d, admin, id, now).after)
  {
  }

  /**
    `DB.close_batch(batch)`: `UPDATE batches SET closed = now WHERE id = batch`.
    The UPDATE touches no constrained column, so it never raises and the result
    is always True, whether or not the batch exists.
  */
  function CloseBatch(d: Tables, batch: string, now: Timestamp): (r: Step<bool>)
    ensures r.result
    ensures r.after.batches.Keys == d.batches.Keys
    ensures batch in d.batches ==> r.after.batches[batch] == d.batches[batch].(closed := Some(now))
    ensures forall b :: b in d.batches && b != batch ==> r.after.batches[b] == d.batches[b]
    ensures r.after.admins == d.admins && r.after.adminSeq == d.adminSeq
    ensures r.after.templates == d.templates && r.after.items == d.items && r.after.itemSeq == d.itemSeq
    ensures BatchesKept(d, r.after)
  {
    if batch in d.batches then Step(true, d.(batches := d.batches[batch := d.batches[batch].(closed := Some(now))]))
    else Step(true, d)
  }

  /** Closing twice has the effect of closing once (with the later timestamp). */
  lemma CloseBatchIdempotent(d: Tables, batch: string, first: Timestamp, second: Timestamp)
    ensures CloseBatch(CloseBatch(d, batch, first).after, batch, second) == CloseBatch(d, batch, second)
  {
  }

  /** A closed batch fails the check branch for every admin: the lifecycle has no reopening. */
  lemma ClosedBatchFailsCheck(d: Tables, batch: string, now: Timestamp, admin: int)
    ensures CheckBatch(CloseBatch(d, batch, now).after, admin, batch) == Err(NoOpenBatch(admin, batch))
  {
  }

  lemma ClosePreservesIntegrity(d: Tables, batch: string, now: Timestamp)
    requires Integrity(d)
    ensures Integrity(CloseBatch(d, batch, now).after)
  {
  }

  // ----------------------------------------------------------------- items

  /**
    `DB.add_item`: False without touching the tables when the ciphertext does
    not decrypt; otherwise `INSERT INTO items`, which fails on the foreign keys
    to `batches` and `templates` and returns False. Neither whether the batch is
    open nor who owns it is checked.
  */
  function AddItem(
    d: Tables, decrypt: string -> Option<string>, batch: string, targetType: string, targetId: string,
    category: string, data: string, template: string, now: Timestamp): (r: Step<bool>)
    ensures r.result <==> decrypt(data).Some? && batch in d.batches && template in d.templates
    ensures !r.result ==> r.after == d
    ensures r.result ==>
      && r.after.items == d.items + [ItemRow(d.itemSeq + 1, batch, targetType, targetId, category, data, template, now, false)]
      && r.after.itemSeq == d.itemSeq + 1
      && r.after.admins == d.admins && r.after.adminSeq == d.adminSeq
      && r.after.templates == d.templates && r.after.batches == d.batches
    ensures BatchesKept(d, r.after)
  {
    if decrypt(data).None? then Step(false, d)
    else if batch !in d.batches || template !in d.templates then Step(false, d)
    else
      var row := ItemRow(d.itemSeq + 1, batch, targetType, targetId, category, data, template, now, false);
      Step(true, d.(items := d.items + [row], itemSeq := d.itemSeq + 1))
  }

  /** Ingestion keeps the schema constraints and the rule that every stored item decrypts. */
  lemma AddItemPreservesInvariants(
    d: Tables, decrypt: string -> Option<string>, batch: string, targetType: string, targetId: string,
    category: string, data: string, template: string, now: Timestamp)
    requires Integrity(d) && Decryptable(d, decrypt)
    ensures var e := AddItem(d, decrypt, batch, targetType, targetId, category, data, template, now).after;
      Integrity(e) && Decryptable(e, decrypt)
  {
  }

  lemma {:induction false} MatchingAppend(items: seq<ItemRow>, x: ItemRow, targetType: string, targetId: string)
    ensures Matching(items + [x], targetType, targetId) ==
      if x.targetType == targetType && x.targetId == targetId && !x.archived
      then Matching(items, targetType, targetId) + [x] else Matching(items, targetType, targetId)
  {
    if items == [] {
      assert items + [x] == [x];
    } else {
      assert (items + [x])[1..] == items[1..] + [x];
      MatchingAppend(items[1..], x, targetType, targetId);
    }
  }

  /**
    A successful `add_item` is visible to its target: `get_items` then lists the
    decrypted data with its template id, and lists exactly one entry more.
  */
  lemma AddedItemIsListed(
    d: Tables, decrypt: string -> Option<string>, batch: string, targetType: string, targetId: string,
    category: string, data: string, template: string, now: Timestamp)
    requires Decryptable(d, decrypt)
    requires AddItem(d, decrypt, batch, targetType, targetId, category, data, template, now).result
    ensures var e := AddItem(d, decrypt, batch, targetType, targetId, category, data, template, now).after;
      && ItemView(decrypt(data).value, template) in GetItems(e, decrypt, targetType, targetId)
      && |GetItems(e, decrypt, targetType, targetId)| == |GetItems(d, decrypt, targetType, targetId)| + 1
  {
    var e := AddItem(d, decrypt, batch, targetType, targetId, category, data, template, now).after;
    var row := ItemRow(d.itemSeq + 1, batch, targetType, targetId, category, data, template, now, false);
    assert row in e.items;
    assert forall x :: x in e.items ==> x in d.items || x == row;
    GetItemsComplete(e, decrypt, targetType, targetId, row);
    GetItemsOfDecryptableStore(d, decrypt, targetType, targetId);
    GetItemsOfDecryptableStore(e, decrypt, targetType, targetId);
    MatchingAppend(d.items, row, targetType, targetId);
  }

  /** A ciphertext that does not decrypt is rejected and nothing is stored, whatever the other arguments. */
  lemma UndecryptableRejected(
    d: Tables, decrypt: string -> Option<string>, batch: string, targetType: string, targetId: string,
    category: string, data: string, template: string, now: Timestamp)
    requires decrypt(data).None?
    ensures AddItem(d, decrypt, batch, targetType, targetId, category, data, template, now) == Step(false, d)
  {
  }
}
